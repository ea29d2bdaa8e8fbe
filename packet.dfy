/** The packets the server sends over a WebSocket, as values (their JSON form is not modelled). */
module Packet {
  import opened Wrappers

  datatype PacketOut =
      /** The number of participants now in the room (`usize`). */
    | ParticipantCount(count: nat)
      /** Sent to the host only: who buzzed, and how many milliseconds after the
          round's first buzz (`None` for the first buzz itself). */
    | Buzzed(name: string, timestampDiff: Option<nat>)
      /** Sent on the broadcast channel when the host's connection ends. */
    | HostLeft
}
