# Buzzer server core, modelled in Dafny

The buzzer server lets a host open a room and participants join it over WebSockets.
In each round the server records who buzzed and in what order. It tells the host who
buzzed first and how many milliseconds each later buzz came after that first one.

This project models the core of that server:

- **`Room` (room.dfy).** `Run` is a class holding the round's buzz list. `Run.Buzz` appends
  one entry and classifies it as `First` or `TimeDifference`. `Room` is the room's actor as
  a class. `Room.Step` is one arm of the actor's `match`, and `Room.Serve` is its loop over
  the mailbox. The actor's output is three things: what it sends to the host
  (`hostOut`), what it sends on the broadcast channel (`broadcastOut`), and the removal it
  asks of the registry (`removal`). Both methods are proved against a pure transition
  function `Transition` and its fold `Process`. The lemmas about those functions cover
  the per-message effects, the room's own bookkeeping (`Consistent`), and the participant
  count.
- **`Session` (session.dfy).** The tasks that feed the mailbox and drain the broadcast
  channel. The host's reader turns text frames into `Clear` and anything else into
  `HostLeft`. A participant's reader sends `ParticipantJoin`, then a `Buzzed` per text
  frame, then `ParticipantLeft`. The egress forwarder relays every broadcast packet, in
  order and unfiltered. `Merge` and `MergeAll` interleave these streams into one mailbox.
  The lemmas show that any such interleaving keeps the participant count at zero or above.
  They also show the count always equals joins minus leaves.
- **`Registry` (registry.dfy).** The directory of rooms as a class with the three maps of
  the source: pending reservations, active rooms (holding their `Room` actor), and
  name → id. `Reserve` and `Create` are methods that keep the invariant `Valid()`; `Remove` keeps
  it when called with a room's own id and name, as the room's actor calls it. That
  invariant says:
  - no id is both pending and active;
  - every name leads to an active room of that name;
  - every active room is found under its own name.

  `FindRoom` and `JoinRoom` are read-only functions.
- **`Utils`, `Errors`, `Options`.** Three pure mappings:
  - name clean-up: trim, and trim then lower-case;
  - each error's display text and HTTP status;
  - the `-v` count → log level table.

Ids (`Ulid`) are 128-bit values supplied by the caller. Clock readings (`Instant`) are
natural numbers of milliseconds. `Packet.PacketOut` is a value type; its JSON form is not
modelled.

The model follows what the code does, including where the code leaves features unfinished.
The code itself marks several of them: the TODOs at `src/registry.rs:19-20` (clean up
unclaimed reservations, sanitise room names) and the commented-out duplicate-buzz check at
`src/room.rs:194-196`. In particular:

- `reserve` does not sanitise the name, check its length or check its uniqueness. It
  always succeeds.
- There is no reservation expiry.
- `find_room` looks the name up exactly, with no trimming or case folding.
- The duplicate-buzz check is commented out. A repeated buzz is recorded again and
  reported with its delay; `Already` is never returned, and the `Already` arm of the
  actor's `match` is proved unreachable.
- There is no `SelectNext`, `Select` or `Deselect`. `Clear` sends nothing.
- Broadcast packets are not filtered per participant. On `ParticipantLeft` the count is
  broadcast only while it is still above zero.
- `src/packet.rs` declares no `HostLeft` packet, but `src/room.rs:88` sends one. The model
  adds `PacketOut.HostLeft`.
- `create` asserts that the reserved name is not already mapped, but the `insert` inside
  the assertion runs first. Because `reserve` never checks names, hosting a second
  reservation of an active room's name panics with the reservation already removed and the
  name already remapped to the new id. The mutex does not poison, so the server goes on
  with a name that leads nowhere. `CreateAsWritten` models this; `Create` is the corrected
  version used by the rest of the model (see "## Findings").

## Model

| member | source | states |
|---|---|---|
| `Utils.FirstKept` | src/utils.rs:2 | the scan from the front stops at the first character that is not whitespace (or at the end), having passed only whitespace |
| `Utils.EndOfKept` | src/utils.rs:2 | the scan from the back stops just after the last character that is not whitespace (never before the front scan's stop), having passed only whitespace |
| `Utils.Sanitize` | src/utils.rs:1-3 | `sanitize` has no whitespace at either end; it is the contiguous slice of the input between its leading and trailing whitespace, with the interior unchanged |
| `Utils.SanitizeOfPadded` | src/utils.rs:1-3 | whitespace + a trimmed core + whitespace sanitises to exactly that core, so the result of `sanitize` is unique |
| `Utils.SanitizeIdempotent` | src/utils.rs:1-3 | `sanitize(sanitize(s)) == sanitize(s)` |
| `Utils.SanitizeIgnoresPadding` | src/utils.rs:1-3 | adding whitespace around a name does not change its sanitised form |
| `Utils.ToLower` | src/utils.rs:6 | lower-casing keeps the length and folds each character on its own |
| `Utils.SanitizeToLowerCommute` | src/utils.rs:5-7 | trimming and lower-casing commute |
| `Utils.SanitizeForSearch` | src/utils.rs:5-7 | `sanitize_for_search(s)` lower-cases `sanitize(s)` character by character, equals `sanitize` of the lower-cased string, and has no whitespace at either end |
| `Utils.SearchKeyIdempotent` | src/utils.rs:5-7 | `sanitize_for_search` is idempotent |
| `Utils.SearchKeyIgnoresCaseAndPadding` | src/utils.rs:5-7 | two names that differ only in letter case and surrounding whitespace have the same search key |
| `Errors.StatusCode` | src/error.rs:19-28 | every error maps to a 4xx status: `RoomNotFound` exactly to 404, `RoomAlreadyExist` exactly to 409, the two "too short" errors exactly to 400 |
| `Errors.StatusCodeSharedOnlyByValidation` | src/error.rs:21-26 | two different errors share a status only if they are `RoomNameTooShort` and `UsernameTooShort` |
| `Errors.Message` | src/error.rs:8-17 | the three room errors' texts begin with "Room ", the username error's text begins with "Username " |
| `Errors.MessagesDistinct` | src/error.rs:8-17 | the four display messages are pairwise different |
| `Options.LogLevel` | src/options.rs:21-29 | the level is never `Off`; its verbosity rank is one more than the `-v` count, capped at four (0 → Error, 1 → Warn, 2 → Info, 3 → Debug, ≥ 4 → Trace) |
| `Options.Verbosity` | src/options.rs:21-29 | `LevelFilter` ranks from 0 to 5: `Off` alone has rank 0 and `Trace` alone rank 5 |
| `Options.VerbosityInjective` | src/options.rs:21-29 | distinct levels have distinct ranks, so the rank is a strict order of the levels |
| `Options.LogLevelSaturates` | src/options.rs:27 | the level is `Trace` exactly when the count is at least 4 |
| `Options.LogLevelMonotone` | src/options.rs:22-28 | a higher count never gives a less verbose level |
| `Room.ElapsedMillis` | src/room.rs:200 | `time - since` in milliseconds when `since` is not later; zero when it is, as the saturating `Instant` subtraction gives |
| `Room.Classify` | src/room.rs:192-201 | the result is never `Already`; it is `First` exactly when no buzz is recorded yet, and otherwise the saturating delay behind the first recorded buzz |
| `Room.Run.constructor` | src/room.rs:188-190 | a new round has an empty buzz list |
| `Room.Run.Buzz` | src/room.rs:192-204 | appends exactly one `(buzzer, time)` at the end, leaving earlier entries as they were, and returns the classification against the list before the append |
| `Room.RoundResults` | src/room.rs:192-204 | buzzing a sequence of arrivals gives one result per arrival, each the classification against every entry recorded before it |
| `Room.BuzzAll` | src/room.rs:192-204 | successive `Run.Buzz` calls return exactly `RoundResults`, and the run ends holding every arrival in order |
| `Room.RoundMeasuredAgainstWinner` | src/room.rs:197-202 | within a round, only the first buzz ever is `First`; every other buzz, repeats by the same participant included, reports its delay behind that first buzz, which stays the winner |
| `Room.RoundDelaysGrowWithTime` | src/room.rs:197-201 | a buzz after the first never reports a smaller delay than an earlier buzz stamped no later |
| `Room.Transition` | src/room.rs:41-91 | one turn of the actor: the identity is kept, outputs only grow, each by at most one packet; the count moves by +1 on join and −1 on leave; once closed nothing changes; it closes exactly on `HostLeft` |
| `Room.JoinAnnouncesCount` | src/room.rs:42-49 | `ParticipantJoin` increments the count and sends `ParticipantCount(count)` to the host and to the broadcast channel |
| `Room.LeaveAnnouncesCount` | src/room.rs:70-79 | `ParticipantLeft` decrements the count, always tells the host, and broadcasts exactly when the new count is above zero |
| `Room.BuzzReportsToHost` | src/room.rs:50-66 | a buzz is appended to the round and reported to the host only, with `timestampDiff` `None` exactly for the round's first buzz and otherwise the delay behind the first |
| `Room.ClearStartsNewRound` | src/room.rs:67-69 | `Clear` replaces the round with an empty one and sends nothing |
| `Room.WinnerAfterClearIsFirstAgain` | src/room.rs:50-68 | after `Clear`, the next buzz is reported as the round's first |
| `Room.HostLeftClosesRoom` | src/room.rs:80-90 | `HostLeft` asks the registry to remove the room's own `(id, name)`, broadcasts `HostLeft`, sends the host nothing, and ends the loop |
| `Room.ClosedIgnoresMailbox` | src/room.rs:38-92 | once the loop has returned, no further message changes anything |
| `Room.ProcessConcat` | src/room.rs:38-92 | processing `a` and then `b` is processing `a + b` |
| `Room.ProcessSplit` | src/room.rs:38-92 | a mailbox that can be processed whole can be processed in two parts with the same result |
| `Room.NothingAfterHostLeft` | src/room.rs:80-90 | messages after `HostLeft` are never processed |
| `Room.Initial` | src/room.rs:35-36 | the actor starts open, with its own id and name, nothing sent, an empty round and no removal; the only message it cannot take first is a leave |
| `Room.Process` | src/room.rs:38-92 | the loop over a mailbox keeps the identity, only appends output (at most one packet per message on each side), changes nothing once closed, and ends closed exactly when the mailbox holds `HostLeft` |
| `Room.InitialConsistent` | src/room.rs:35-36 | the actor starts consistent |
| `Room.TransitionKeepsConsistent` | src/room.rs:41-91 | each turn keeps the actor consistent: closed exactly when the removal is asked, the removal names the room itself, `HostLeft` is broadcast once and last, and the host never gets `HostLeft` |
| `Room.ProcessKeepsConsistent` | src/room.rs:38-92 | every state reached from a consistent one stays consistent |
| `Room.UntilHostLeft` | src/room.rs:80-90 | the processed part of a mailbox is a prefix that ends at its first `HostLeft` or is the whole mailbox |
| `Room.BalancedFromPrefix` | src/room.rs:70-71 | a prefix of a mailbox that never takes the count below zero does not either |
| `Room.BalancedFromMonotone` | src/room.rs:70-71 | starting from a higher count keeps the count non-negative |
| `Room.BalancedIsAdmissible` | src/room.rs:70-71 | a mailbox along which joins never fall behind leaves is processed without the `usize` count underflowing |
| `Room.CountIsJoinsMinusLeaves` | src/room.rs:42-78 | the count after processing is the starting count plus joins minus leaves, over the messages up to `HostLeft` |
| `Room.Room.constructor` | src/room.rs:28-36 | a new actor has count 0, an empty round, nothing sent, no removal, and is open |
| `Room.Room.Step` | src/room.rs:41-91 | one arm of the actor's `match` changes the actor's fields exactly as `Transition` says |
| `Room.Room.Serve` | src/room.rs:38-92 | the loop leaves the actor in the state `Process` gives for the whole mailbox, returning at `HostLeft` |
| `Session.TextRun` | src/room.rs:98-106 | the number of leading text frames, which stops at the first other frame |
| `Session.HostEvents` | src/room.rs:96-116 | the host's reader sends one `Clear` per leading text frame, then exactly one `HostLeft`, and nothing else |
| `Session.HostReader` | src/room.rs:96-116 | the reader loop sends exactly `HostEvents(frames)` |
| `Session.BuzzesThenLeave` | src/room.rs:156-178 | one `Buzzed(p, clock[i])` per leading text frame, then `ParticipantLeft` |
| `Session.SessionEvents` | src/room.rs:151-179 | a participant's reader sends `ParticipantJoin` first, then its buzzes stamped with the clock, then `ParticipantLeft` last |
| `Session.ParticipantReader` | src/room.rs:151-179 | the reader loop sends exactly `SessionEvents(p, frames, clock)` |
| `Session.Forward` | src/room.rs:135-150 | the forwarder delivers the broadcast packets in order, unfiltered, up to the first refused send; it closes the socket exactly when every send succeeded and the channel ended |
| `Session.SubscriberReceivesHostLeftLast` | src/room.rs:135-150 | a subscriber whose sends all succeed, in a room that has closed, is delivered the whole broadcast from its subscription on, with one `HostLeft` as the last packet, and closes its socket |
| `Session.SubscriberSeesHostLeftOnce` | src/room.rs:88 | after the room closes, every subscriber's share of the broadcast holds exactly one `HostLeft`, as its last packet; the host never gets one |
| `Session.Merge` | src/room.rs:29-39 | interleaving two senders' messages keeps every message: length and multiset are the sum of the two |
| `Session.MergeAll` | src/room.rs:29-39 | the mailbox fed by any number of senders holds exactly the messages they sent, each as often as it was sent |
| `Session.MergeAllKeepsEveryStream` | src/room.rs:29-39 | no sender's message is lost in the mailbox |
| `Session.MergeBalanced` | src/room.rs:42-78 | interleaving two streams that keep the count non-negative gives one that does too |
| `Session.MergeAllBalanced` | src/room.rs:42-78 | the same for any number of streams |
| `Session.BuzzesThenLeaveBalanced` | src/room.rs:156-178 | a session's buzzes and single leave keep a positive count non-negative |
| `Session.SessionPrefixBalanced` | src/room.rs:152-155 | whatever part of its messages a session has sent so far never takes the count below zero, because the join comes first |
| `Session.NeutralBalanced` | src/room.rs:96-116 | messages that are neither joins nor leaves keep the count where it is |
| `Session.HostPrefixBalanced` | src/room.rs:96-116 | the host's reader's messages never move the count |
| `Session.SessionMailboxKeepsCount` | src/room.rs:42-78 | for any interleaving of the host's stream and any number of session streams, the actor processes the mailbox without underflow, and the count equals joins minus leaves |
| `Registry.Registry.constructor` | src/registry.rs:10-15 | the default registry is empty and valid |
| `Registry.Registry.Reserve` | src/registry.rs:18-36 | always returns `Some((id, name))` with a fresh id; adds exactly one pending entry holding the name unchanged; leaves `rooms` and the name mapping untouched; keeps the registry valid |
| `Registry.Registry.Create` | src/registry.rs:38-49 | corrected `create`: refuses and changes nothing for an id that is not pending or whose name an active room holds; otherwise moves it from pending to active with a fresh actor, maps the name to it, returns true; the registry stays valid either way |
| `Registry.Registry.CreateAsWritten` | src/registry.rs:38-49 | `create` as written: an unknown id changes nothing; a free name gives the same valid result as `Create` (fresh actor in its initial state, other rooms untouched); a taken name removes the reservation, remaps the name to the new id and then panics, leaving the registry invalid with the name leading to an id nobody can join |
| `Registry.Registry.Remove` | src/registry.rs:51-55 | in any state, deletes the id from `rooms` and the name from the mapping and touches nothing else; given a room's own id and name, a valid registry stays valid |
| `Registry.Registry.FindRoom` | src/registry.rs:57-62 | `Some((id, name))` exactly when the exact name is mapped, echoing the query; in a valid registry the id is an active room of that name |
| `Registry.Registry.JoinRoom` | src/registry.rs:64-72 | true exactly when the id is an active room; the maps are not modified |
| `Registry.Registry.FindAndJoinAgree` | src/registry.rs:57-72 | a room found by name can be joined, and every active room is found under its own name |
| `Registry.RemoveOnHostLeft` | src/room.rs:80-89 | the removal the actor asks for on `HostLeft` removes exactly that room, frees its name and keeps the registry valid |
| `Registry.ReserveHostFind` | src/registry.rs:18-62 | reserve, then create, then `find_room` with the same exact name finds the room, and it can be joined |
| `Registry.ReserveSameNameTwice` | src/registry.rs:18-48 | the same name reserved twice gives two pending reservations; after the first is hosted, the corrected `create` refuses the second and the first stays found and joinable |
| `Registry.HostLeavesAfterPanic` | src/registry.rs:51-55 | after the panic of `create` as written, the first room's `HostLeft` removal drops its room and the dangling name, and the registry is valid again |
| `Registry.ReserveSameNameTwiceAsWritten` | src/registry.rs:18-48 | the same scenario with `create` as written: hosting the second panics, the registry is invalid, the name leads to an unjoinable id, and the first room, still active, is no longer found by name |

## Left out

- Id and clock sources: `Ulid::new()` and `Instant::now()` are parameters. `Reserve` takes a fresh `id`; `ParticipantReader` takes one clock reading per frame.
- Room.ElapsedMillis: `Instant` is whole milliseconds. The sub-millisecond truncation of `as_millis()` and the `u128` → `u64` cast are taken as exact.
- Room.Transition: the `usize` count is unbounded, so an overflow on join is not modelled. Underflow on leave is a precondition (`CanStep`), proved unreachable for mailboxes built from sessions.
- Utils.ToLower: `to_lowercase` is modelled as ASCII case folding. Unicode lower-casing, which can change a string's length, is not modelled.
- Concurrency: the tokio tasks, mailbox capacity and backpressure, and broadcast lag are not modelled. The mailbox is a sequence, and `Merge` and `MergeAll` give every interleaving.
- Panics on a failed channel send are not modelled. These are the `expect("send failed")` calls on the host sink and the broadcast sender (`src/room.rs:47`, `:48`, `:56-65`, `:75`, `:77`), and `expect("main channel closed")`. Such a panic ends the actor before it reaches `HostLeft`, for example when the host's socket has closed while messages are still queued ahead of its `HostLeft`. Then `remove` never runs, and the room and its name stay in the registry. `RemoveOnHostLeft` covers only the case where `HostLeft` is processed.
- Session.ParticipantReader: the early return when a `Buzzed` send fails is not modelled. That happens after the room's loop has ended, so nothing would process those messages anyway. `rx_handle.abort()` is not modelled either.
- Session.Forward: a `Lagged` receive error also ends the forwarder, but is not modelled separately from the channel closing.
- `Room::join` starting the two session tasks is not part of `JoinRoom`, which only answers whether the room exists. The tasks are modelled by `ParticipantReader` and `Forward`.
- The registry's mutex and the `Weak` upgrade of the registry (with its panic) are not modelled. Calls are sequential.
- `PendingRoom.creation` is kept, but nothing reads it, because there is no expiry.
- Registry.Registry.Create: the corrected version refuses a taken name. The source's behaviour in that case is `CreateAsWritten`; the stack unwinding of the panic itself is not modelled.
- HTTP routing and handlers (`src/main.rs`), the browser script, JSON serialisation of packets and of error bodies, command-line parsing and logging are not part of this model.

## Findings

| source | as written | input that shows it | evidently intended | confidence | as-written member | corrected member |
|---|---|---|---|---|---|---|
| src/registry.rs:38-49 | `create` removes the reservation and remaps the name inside `assert!` before the assertion can fail; when the name belongs to an active room it panics with both updates in place, and since the mutex does not poison the server keeps a name that leads to an id that is neither pending nor active | reserve "quiz" as A, reserve "quiz" as B, host A, host B | a taken name is refused before anything changes, so every name keeps leading to its active room (the unused `RoomAlreadyExist` error, 409, suggests such a refusal was planned) | high that the state is reached, medium on the intended remedy; not executed | `Registry.ReserveSameNameTwiceAsWritten` (using `Registry.Registry.CreateAsWritten`) | `Registry.Registry.Create`, with `Registry.ReserveSameNameTwice` |
