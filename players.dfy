/**
 * The players the plugin deals with: a Steam user id, a 64-bit unsigned
 * integer, and a display name.
 */
module Players {
  newtype ulong = x: int | 0 <= x < 0x1_0000_0000_0000_0000

  /** A connected player, as far as mail is concerned. */
  datatype Player = Player(userId: ulong, displayName: string)
}
