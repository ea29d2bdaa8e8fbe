/** Identifiers and clock readings shared by the registry, the rooms and the sessions. */
module Types {

  /** A ULID: 128 bits. Minting one is left to the environment, which promises
      never to hand out the same value twice. */
  newtype Ulid = x: int | 0 <= x < 0x1_0000_0000_0000_0000_0000_0000_0000_0000

  /** A reading of the monotonic clock (`Instant`), counted in milliseconds. */
  type Instant = nat
}
