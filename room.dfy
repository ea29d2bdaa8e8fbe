/** One room: the buzz order of the current round (`Run`) and the room's actor, a
    single-threaded loop that takes one `RoomMessage` at a time from its mailbox and
    answers with packets to the host and to the broadcast channel. */
module Room {
  import opened Wrappers
  import opened Types
  import Packet

  // ===========================================================================
  // Run: the buzz order of one round
  // ===========================================================================

  /** One recorded buzz: who buzzed, and the instant the participant's reader stamped. */
  datatype BuzzEntry = BuzzEntry(buzzer: Ulid, time: Instant)

  datatype BuzzResult = Already | First | TimeDifference(millis: nat)

  /** `(time - since).as_millis()`. Subtracting a later `Instant` saturates at zero, and
      the conversion to `u64` is taken as exact. */
  function ElapsedMillis(since: Instant, time: Instant): (e: nat)
    ensures since <= time ==> since + e == time
    ensures time < since ==> e == 0
  {
    if since <= time then time - since else 0
  }

  /** What `Run::buzz` reports for a buzz at `time` when `buzzed` is already recorded:
      the first buzz of a round wins, every later one is measured against the winner.
      The duplicate check is commented out, so `Already` never comes back. */
  function Classify(buzzed: seq<BuzzEntry>, time: Instant): (r: BuzzResult)
    ensures !r.Already?
    ensures r.First? <==> buzzed == []
    ensures r.TimeDifference? ==> r.millis == ElapsedMillis(buzzed[0].time, time)
  {
    if buzzed == [] then First else TimeDifference(ElapsedMillis(buzzed[0].time, time))
  }

  class Run {
    var buzzed: seq<BuzzEntry>

    /** `Run::new`: a round nobody has buzzed in yet. */
    constructor ()
      ensures buzzed == []
    {
      buzzed := [];
    }

    /** `Run::buzz`: classifies the buzz, then appends it; earlier entries stay as they are. */
    method Buzz(buzzer: Ulid, time: Instant) returns (res: BuzzResult)
      modifies this
      ensures buzzed == old(buzzed) + [BuzzEntry(buzzer, time)]
      ensures res == Classify(old(buzzed), time)
    {
      if |buzzed| == 0 {
        res := First;
      } else {
        res := TimeDifference(ElapsedMillis(buzzed[0].time, time));
      }
      buzzed := buzzed + [BuzzEntry(buzzer, time)];
    }
  }

  /** The results of buzzing `arrivals` one after another into a round that already
      holds `buzzed`: each arrival is classified against everything recorded before it. */
  function RoundResults(buzzed: seq<BuzzEntry>, arrivals: seq<BuzzEntry>): (results: seq<BuzzResult>)
    ensures |results| == |arrivals|
    ensures forall k :: 0 <= k < |arrivals| ==>
      results[k] == Classify(buzzed + arrivals[..k], arrivals[k].time)
    decreases |arrivals|
  {
    if arrivals == [] then []
    else
      var rest := RoundResults(buzzed + [arrivals[0]], arrivals[1..]);
      ShiftedPrefixes(buzzed, arrivals);
      assert forall k :: 1 <= k < |arrivals| ==>
        rest[k - 1] == Classify(buzzed + arrivals[..k], arrivals[k].time);
      assert buzzed + arrivals[..0] == buzzed;
      [Classify(buzzed, arrivals[0].time)] + rest
  }

  /** Recording the first arrival and then a prefix of the others is recording a prefix
      of all of them. */
  lemma ShiftedPrefixes(buzzed: seq<BuzzEntry>, arrivals: seq<BuzzEntry>)
    requires arrivals != []
    ensures forall k :: 1 <= k <= |arrivals| ==>
      buzzed + [arrivals[0]] + arrivals[1..][..k - 1] == buzzed + arrivals[..k]
  {
    forall k | 1 <= k <= |arrivals|
      ensures buzzed + [arrivals[0]] + arrivals[1..][..k - 1] == buzzed + arrivals[..k]
    {
      assert arrivals[..k] == [arrivals[0]] + arrivals[1..][..k - 1];
    }
  }

  /** Buzzing `arrivals` into a `Run` one after another, as the room's actor does with
      the `Buzzed` messages of one round: the results are the round's results and the
      run ends up holding every arrival in order. */
  method BuzzAll(run: Run, arrivals: seq<BuzzEntry>) returns (results: seq<BuzzResult>)
    modifies run
    ensures run.buzzed == old(run.buzzed) + arrivals
    ensures results == RoundResults(old(run.buzzed), arrivals)
  {
    ghost var expected := RoundResults(run.buzzed, arrivals);
    ghost var start := run.buzzed;
    results := [];
    var i := 0;
    while i < |arrivals|
      invariant 0 <= i <= |arrivals|
      invariant run.buzzed == start + arrivals[..i]
      invariant results == expected[..i]
    {
      assert expected[i] == Classify(run.buzzed, arrivals[i].time);
      var res := run.Buzz(arrivals[i].buzzer, arrivals[i].time);
      assert expected[..i + 1] == expected[..i] + [res];
      results := results + [res];
      assert arrivals[..i + 1] == arrivals[..i] + [arrivals[i]];
      i := i + 1;
    }
    assert arrivals[..i] == arrivals;
  }

  /** Over a whole round, only the very first buzz is `First`; every other buzz, a repeat
      by the same participant included, gets its delay behind that first buzz. */
  lemma RoundMeasuredAgainstWinner(buzzed: seq<BuzzEntry>, arrivals: seq<BuzzEntry>, k: nat)
    requires k < |arrivals|
    ensures var winner := (buzzed + arrivals)[0];
      RoundResults(buzzed, arrivals)[k] ==
        if buzzed == [] && k == 0 then First
        else TimeDifference(ElapsedMillis(winner.time, arrivals[k].time))
  {
    var before := buzzed + arrivals[..k];
    if before != [] {
      assert before[0] == (buzzed + arrivals)[0];
    }
  }

  /** A later buzz never reports a smaller delay than an earlier one stamped no later. */
  lemma RoundDelaysGrowWithTime(buzzed: seq<BuzzEntry>, arrivals: seq<BuzzEntry>, j: nat, k: nat)
    requires j < k < |arrivals|
    requires arrivals[j].time <= arrivals[k].time
    ensures RoundResults(buzzed, arrivals)[k].TimeDifference?
    ensures RoundResults(buzzed, arrivals)[j].TimeDifference? ==>
      RoundResults(buzzed, arrivals)[j].millis <= RoundResults(buzzed, arrivals)[k].millis
  {
    RoundMeasuredAgainstWinner(buzzed, arrivals, j);
    RoundMeasuredAgainstWinner(buzzed, arrivals, k);
  }

  // ===========================================================================
  // The room's messages and its state, as values
  // ===========================================================================

  datatype Participant = Participant(id: Ulid, name: string)

  /** What the mailbox carries: from the participant sessions `ParticipantJoin`,
      `Buzzed` and `ParticipantLeft`; from the host's reader `Clear` and `HostLeft`. */
  datatype RoomMessage =
    | ParticipantJoin
    | Buzzed(buzzer: Participant, timestamp: Instant)
    | Clear
    | ParticipantLeft
    | HostLeft

  /** Everything the actor has: its identity, its count, the current round, what it has
      sent to the host and to the broadcast channel, the removal it has asked of the
      registry, and whether its loop has ended. */
  datatype RoomState = RoomState(
    id: Ulid,
    name: string,
    participantsCount: nat,
    buzzed: seq<BuzzEntry>,
    hostOut: seq<Packet.PacketOut>,
    broadcastOut: seq<Packet.PacketOut>,
    removal: Option<(Ulid, string)>,
    closed: bool)

  /** The actor as `Room::new` starts it. */
  function Initial(id: Ulid, name: string): (t: RoomState)
    ensures t.id == id && t.name == name && !t.closed && t.removal == None
    ensures t.hostOut == [] && t.broadcastOut == [] && t.buzzed == []
    ensures forall msg :: CanStep(t, msg) <==> !msg.ParticipantLeft?
  {
    RoomState(id, name, 0, [], [], [], None, false)
  }

  /** `participants_count` is a `usize`: a `ParticipantLeft` at zero would underflow. */
  predicate CanStep(s: RoomState, msg: RoomMessage)
  {
    !(!s.closed && msg.ParticipantLeft? && s.participantsCount == 0)
  }

  /** One turn of the actor's loop. Once the loop has ended, messages change nothing. */
  function Transition(s: RoomState, msg: RoomMessage): (t: RoomState)
    requires CanStep(s, msg)
    ensures t.id == s.id && t.name == s.name
    ensures s.hostOut <= t.hostOut && s.broadcastOut <= t.broadcastOut
    ensures |t.hostOut| <= |s.hostOut| + 1 && |t.broadcastOut| <= |s.broadcastOut| + 1
    ensures s.closed ==> t == s
    ensures !s.closed ==> t.participantsCount == s.participantsCount + Delta(msg)
    ensures t.closed <==> s.closed || msg.HostLeft?
  {
    if s.closed then s
    else match msg
      case ParticipantJoin =>
        var count := s.participantsCount + 1;
        var packet := Packet.ParticipantCount(count);
        s.(participantsCount := count, hostOut := s.hostOut + [packet],
           broadcastOut := s.broadcastOut + [packet])
      case Buzzed(buzzer, timestamp) =>
        var next := s.(buzzed := s.buzzed + [BuzzEntry(buzzer.id, timestamp)]);
        // `Classify` never answers `Already`, so that arm of the source's match is dead.
        (match Classify(s.buzzed, timestamp)
         case First => next.(hostOut := s.hostOut + [Packet.Buzzed(buzzer.name, None)])
         case TimeDifference(diff) =>
           next.(hostOut := s.hostOut + [Packet.Buzzed(buzzer.name, Some(diff))]))
      case Clear => s.(buzzed := [])
      case ParticipantLeft =>
        var count := s.participantsCount - 1;
        var packet := Packet.ParticipantCount(count);
        s.(participantsCount := count, hostOut := s.hostOut + [packet],
           broadcastOut := if count > 0 then s.broadcastOut + [packet] else s.broadcastOut)
      case HostLeft =>
        s.(removal := Some((s.id, s.name)), broadcastOut := s.broadcastOut + [Packet.HostLeft],
           closed := true)
  }

  /** The whole mailbox can be taken in order without the count underflowing. */
  predicate Admissible(s: RoomState, mailbox: seq<RoomMessage>)
    decreases |mailbox|
  {
    mailbox == [] || (CanStep(s, mailbox[0]) && Admissible(Transition(s, mailbox[0]), mailbox[1..]))
  }

  /** The state after taking every message of `mailbox` in order. */
  function Process(s: RoomState, mailbox: seq<RoomMessage>): (t: RoomState)
    requires Admissible(s, mailbox)
    ensures t.id == s.id && t.name == s.name
    ensures s.hostOut <= t.hostOut && s.broadcastOut <= t.broadcastOut
    ensures |t.hostOut| <= |s.hostOut| + |mailbox| && |t.broadcastOut| <= |s.broadcastOut| + |mailbox|
    ensures s.closed ==> t == s
    ensures t.closed <==> s.closed || HostLeft in mailbox
    decreases |mailbox|
  {
    if mailbox == [] then s else Process(Transition(s, mailbox[0]), mailbox[1..])
  }

  // ===========================================================================
  // What one message does
  // ===========================================================================

  /** `ParticipantJoin` raises the count by one and tells the new count to the host and
      to every subscriber. */
  lemma JoinAnnouncesCount(s: RoomState)
    requires !s.closed
    ensures var t := Transition(s, ParticipantJoin);
      && t.participantsCount == s.participantsCount + 1
      && t.hostOut == s.hostOut + [Packet.ParticipantCount(t.participantsCount)]
      && t.broadcastOut == s.broadcastOut + [Packet.ParticipantCount(t.participantsCount)]
      && t.buzzed == s.buzzed && !t.closed
  {
  }

  /** `ParticipantLeft` lowers the count by one and always tells the host; the
      subscribers hear of it only while someone is still in the room. */
  lemma LeaveAnnouncesCount(s: RoomState)
    requires !s.closed && s.participantsCount > 0
    ensures var t := Transition(s, ParticipantLeft);
      && t.participantsCount == s.participantsCount - 1
      && t.hostOut == s.hostOut + [Packet.ParticipantCount(t.participantsCount)]
      && (t.broadcastOut == s.broadcastOut + [Packet.ParticipantCount(t.participantsCount)]
          <==> t.participantsCount > 0)
      && (t.participantsCount == 0 ==> t.broadcastOut == s.broadcastOut)
  {
  }

  /** A buzz is recorded at the end of the round and reported to the host alone, with no
      delay exactly when it is the round's first. */
  lemma BuzzReportsToHost(s: RoomState, p: Participant, time: Instant)
    requires !s.closed
    ensures var t := Transition(s, Buzzed(p, time));
      && t.buzzed == s.buzzed + [BuzzEntry(p.id, time)]
      && |t.hostOut| == |s.hostOut| + 1
      && t.hostOut[|s.hostOut|].Buzzed?
      && t.hostOut[|s.hostOut|].name == p.name
      && (t.hostOut[|s.hostOut|].timestampDiff.None? <==> s.buzzed == [])
      && (s.buzzed != [] ==>
            t.hostOut[|s.hostOut|].timestampDiff == Some(ElapsedMillis(s.buzzed[0].time, time)))
      && t.broadcastOut == s.broadcastOut
      && t.participantsCount == s.participantsCount
  {
  }

  /** `Clear` starts a fresh round and sends nothing. */
  lemma ClearStartsNewRound(s: RoomState)
    requires !s.closed
    ensures var t := Transition(s, Clear);
      t == s.(buzzed := []) && t.hostOut == s.hostOut && t.broadcastOut == s.broadcastOut
  {
  }

  /** After `Clear`, the previous winner's next buzz is the new round's first. */
  lemma WinnerAfterClearIsFirstAgain(s: RoomState, p: Participant, time: Instant)
    requires !s.closed
    ensures var t := Transition(Transition(s, Clear), Buzzed(p, time));
      t.hostOut == s.hostOut + [Packet.Buzzed(p.name, None)]
  {
  }

  /** `HostLeft` asks the registry to remove this very room, broadcasts `HostLeft`, and
      ends the loop. */
  lemma HostLeftClosesRoom(s: RoomState)
    requires !s.closed
    ensures var t := Transition(s, HostLeft);
      && t.removal == Some((s.id, s.name))
      && t.broadcastOut == s.broadcastOut + [Packet.HostLeft]
      && t.hostOut == s.hostOut
      && t.closed
  {
  }

  // ===========================================================================
  // Whole mailboxes
  // ===========================================================================

  /** The loop has ended: nothing else in the mailbox is looked at. */
  lemma {:induction false} ClosedIgnoresMailbox(s: RoomState, mailbox: seq<RoomMessage>)
    requires s.closed
    ensures Admissible(s, mailbox) && Process(s, mailbox) == s
    decreases |mailbox|
  {
    if mailbox != [] {
      ClosedIgnoresMailbox(s, mailbox[1..]);
    }
  }

  /** Taking `a` then `b` is taking `a + b`. */
  lemma {:induction false} ProcessConcat(s: RoomState, a: seq<RoomMessage>, b: seq<RoomMessage>)
    requires Admissible(s, a)
    ensures Admissible(s, a + b) <==> Admissible(Process(s, a), b)
    ensures Admissible(s, a + b) ==> Process(s, a + b) == Process(Process(s, a), b)
    decreases |a|
  {
    if a == [] {
      assert a + b == b;
    } else {
      assert (a + b)[0] == a[0] && (a + b)[1..] == a[1..] + b;
      ProcessConcat(Transition(s, a[0]), a[1..], b);
    }
  }

  /** A mailbox that can be taken whole can be taken in two parts. */
  lemma {:induction false} ProcessSplit(s: RoomState, a: seq<RoomMessage>, b: seq<RoomMessage>)
    requires Admissible(s, a + b)
    ensures Admissible(s, a) && Admissible(Process(s, a), b)
    ensures Process(s, a + b) == Process(Process(s, a), b)
    decreases |a|
  {
    if a == [] {
      assert a + b == b;
    } else {
      assert (a + b)[0] == a[0] && (a + b)[1..] == a[1..] + b;
      ProcessSplit(Transition(s, a[0]), a[1..], b);
    }
  }

  /** Whatever arrives after `HostLeft` is never processed. */
  lemma NothingAfterHostLeft(s: RoomState, before: seq<RoomMessage>, after: seq<RoomMessage>)
    requires Admissible(s, before + [HostLeft])
    ensures Admissible(s, before + [HostLeft] + after)
    ensures Process(s, before + [HostLeft] + after) == Process(s, before + [HostLeft])
  {
    var done := Process(s, before + [HostLeft]);
    ProcessSplit(s, before, [HostLeft]);
    assert done.closed;
    ClosedIgnoresMailbox(done, after);
    ProcessConcat(s, before + [HostLeft], after);
  }

  /** The room's own bookkeeping: the loop has ended exactly when the removal has been
      asked for, the removal names the room itself, `HostLeft` is broadcast once and
      last, and the host is never sent `HostLeft`. */
  ghost predicate Consistent(s: RoomState)
  {
    && (s.closed <==> s.removal.Some?)
    && (s.removal.Some? ==> s.removal.value == (s.id, s.name))
    && (s.closed ==> |s.broadcastOut| > 0 && s.broadcastOut[|s.broadcastOut| - 1].HostLeft?)
    && (forall i :: 0 <= i < |s.broadcastOut| && s.broadcastOut[i].HostLeft? ==>
          s.closed && i == |s.broadcastOut| - 1)
    && (forall i :: 0 <= i < |s.hostOut| ==> !s.hostOut[i].HostLeft?)
  }

  lemma InitialConsistent(id: Ulid, name: string)
    ensures Consistent(Initial(id, name))
  {
  }

  lemma TransitionKeepsConsistent(s: RoomState, msg: RoomMessage)
    requires Consistent(s) && CanStep(s, msg)
    ensures Consistent(Transition(s, msg))
  {
  }

  /** Every state the actor reaches from its start is consistent. */
  lemma {:induction false} ProcessKeepsConsistent(s: RoomState, mailbox: seq<RoomMessage>)
    requires Consistent(s) && Admissible(s, mailbox)
    ensures Consistent(Process(s, mailbox))
    decreases |mailbox|
  {
    if mailbox != [] {
      TransitionKeepsConsistent(s, mailbox[0]);
      ProcessKeepsConsistent(Transition(s, mailbox[0]), mailbox[1..]);
    }
  }

  // ===========================================================================
  // The participant count
  // ===========================================================================

  /** How a message moves the participant count. */
  function Delta(msg: RoomMessage): int
  {
    match msg
    case ParticipantJoin => 1
    case ParticipantLeft => -1
    case _ => 0
  }

  /** Joins minus leaves. */
  function Net(msgs: seq<RoomMessage>): int
    decreases |msgs|
  {
    if msgs == [] then 0 else Delta(msgs[0]) + Net(msgs[1..])
  }

  /** The part of a mailbox an open room processes: up to and including the first
      `HostLeft`. */
  function UntilHostLeft(msgs: seq<RoomMessage>): (done: seq<RoomMessage>)
    ensures done <= msgs
    ensures forall i :: 0 <= i < |done| - 1 ==> !done[i].HostLeft?
    ensures done == msgs || (done != [] && done[|done| - 1].HostLeft?)
    decreases |msgs|
  {
    if msgs == [] then []
    else if msgs[0].HostLeft? then [msgs[0]]
    else [msgs[0]] + UntilHostLeft(msgs[1..])
  }

  /** Starting from `count`, the count never drops below zero along `msgs`. */
  predicate BalancedFrom(count: int, msgs: seq<RoomMessage>)
    decreases |msgs|
  {
    count >= 0 && (msgs == [] || BalancedFrom(count + Delta(msgs[0]), msgs[1..]))
  }

  lemma {:induction false} BalancedFromPrefix(count: int, msgs: seq<RoomMessage>, n: nat)
    requires BalancedFrom(count, msgs) && n <= |msgs|
    ensures BalancedFrom(count, msgs[..n])
    decreases n
  {
    if n > 0 {
      assert msgs[..n][1..] == msgs[1..][..n - 1];
      BalancedFromPrefix(count + Delta(msgs[0]), msgs[1..], n - 1);
    }
  }

  lemma {:induction false} BalancedFromMonotone(count: int, more: int, msgs: seq<RoomMessage>)
    requires BalancedFrom(count, msgs) && count <= more
    ensures BalancedFrom(more, msgs)
    decreases |msgs|
  {
    if msgs != [] {
      BalancedFromMonotone(count + Delta(msgs[0]), more + Delta(msgs[0]), msgs[1..]);
    }
  }

  /** A mailbox along which the count never goes negative can be processed without
      underflow, whatever else it holds. */
  lemma {:induction false} BalancedIsAdmissible(s: RoomState, mailbox: seq<RoomMessage>)
    requires s.closed || BalancedFrom(s.participantsCount, mailbox)
    ensures Admissible(s, mailbox)
    decreases |mailbox|
  {
    if s.closed {
      ClosedIgnoresMailbox(s, mailbox);
    } else if mailbox != [] {
      BalancedIsAdmissible(Transition(s, mailbox[0]), mailbox[1..]);
    }
  }

  /** The count the actor holds is its starting count plus joins minus leaves, over the
      messages it has processed. */
  lemma {:induction false} CountIsJoinsMinusLeaves(s: RoomState, mailbox: seq<RoomMessage>)
    requires !s.closed && Admissible(s, mailbox)
    ensures Process(s, mailbox).participantsCount == s.participantsCount + Net(UntilHostLeft(mailbox))
    decreases |mailbox|
  {
    if mailbox != [] {
      var t := Transition(s, mailbox[0]);
      if mailbox[0].HostLeft? {
        ClosedIgnoresMailbox(t, mailbox[1..]);
        assert UntilHostLeft(mailbox) == [mailbox[0]];
      } else {
        CountIsJoinsMinusLeaves(t, mailbox[1..]);
        var rest := UntilHostLeft(mailbox[1..]);
        assert UntilHostLeft(mailbox) == [mailbox[0]] + rest;
        assert ([mailbox[0]] + rest)[1..] == rest;
      }
    }
  }

  // ===========================================================================
  // The actor
  // ===========================================================================

  /** The actor spawned by `Room::new`. Its packets to the host and to the broadcast
      channel are the sequences `hostOut` and `broadcastOut`. */
  class Room {
    const id: Ulid
    const name: string
    var participantsCount: nat
    var run: Run
    var hostOut: seq<Packet.PacketOut>
    var broadcastOut: seq<Packet.PacketOut>
    var removal: Option<(Ulid, string)>
    var closed: bool

    ghost function State(): RoomState
      reads this, run
    {
      RoomState(id, name, participantsCount, run.buzzed, hostOut, broadcastOut, removal, closed)
    }

    /** `Room::new`: no participant, an empty round, nothing sent yet. */
    constructor (id: Ulid, name: string)
      ensures this.id == id && this.name == name
      ensures State() == Initial(id, name)
      ensures fresh(run)
    {
      this.id := id;
      this.name := name;
      participantsCount := 0;
      run := new Run();
      hostOut := [];
      broadcastOut := [];
      removal := None;
      closed := false;
    }

    /** One arm of the actor's `match`. */
    method Step(msg: RoomMessage)
      requires CanStep(State(), msg)
      modifies this, run
      ensures run == old(run) || fresh(run)
      ensures State() == Transition(old(State()), msg)
    {
      if closed {
        return;
      }
      match msg
      case ParticipantJoin =>
        participantsCount := participantsCount + 1;
        var packet := Packet.ParticipantCount(participantsCount);
        hostOut := hostOut + [packet];
        broadcastOut := broadcastOut + [packet];
      case Buzzed(buzzer, timestamp) =>
        var res := run.Buzz(buzzer.id, timestamp);
        var timestampDiff: Option<nat>;
        match res {
          case First => timestampDiff := None;
          case TimeDifference(diff) => timestampDiff := Some(diff);
        }
        hostOut := hostOut + [Packet.Buzzed(buzzer.name, timestampDiff)];
      case Clear =>
        run := new Run();
      case ParticipantLeft =>
        participantsCount := participantsCount - 1;
        var packet := Packet.ParticipantCount(participantsCount);
        hostOut := hostOut + [packet];
        if participantsCount > 0 {
          broadcastOut := broadcastOut + [packet];
        }
      case HostLeft =>
        removal := Some((id, name));
        broadcastOut := broadcastOut + [Packet.HostLeft];
        closed := true;
    }

    /** The actor's loop: takes the mailbox's messages in order and returns at `HostLeft`. */
    method Serve(mailbox: seq<RoomMessage>)
      requires Admissible(State(), mailbox)
      modifies this, run
      ensures State() == Process(old(State()), mailbox)
    {
      var i := 0;
      while i < |mailbox| && !closed
        invariant 0 <= i <= |mailbox|
        invariant run == old(run) || fresh(run)
        invariant Admissible(State(), mailbox[i..])
        invariant Process(State(), mailbox[i..]) == Process(old(State()), mailbox)
      {
        assert mailbox[i..][0] == mailbox[i] && mailbox[i..][1..] == mailbox[i + 1..];
        Step(mailbox[i]);
        i := i + 1;
      }
      ClosedIgnoresMailboxOrEmpty(State(), mailbox[i..]);
    }
  }

  lemma ClosedIgnoresMailboxOrEmpty(s: RoomState, rest: seq<RoomMessage>)
    requires rest == [] || s.closed
    ensures Admissible(s, rest) && Process(s, rest) == s
  {
    if s.closed {
      ClosedIgnoresMailbox(s, rest);
    }
  }
}
