/** The bot's durable state: the two JSON files, seen as two finite maps.

    `assignments` maps a user id to the room that user has to look after;
    `incomplete` maps a user id to the room of a cycle that user has not yet
    acknowledged. Reading and writing the files is plumbing: every handler
    reads both maps, computes, and writes them back, so a handler is a pure
    function from the old pair of maps to the new one.
 */
module Store {

  /** A user id as the handlers compare it: the decimal text of a Telegram id,
      or whatever string the administrator typed into `/add`. */
  type UserId = string

  /** A room label; the bot never looks inside it. */
  type Room = string

  /** The one administrator allowed to run `/add` and `/incomplete`. */
  const AdminId: UserId := "123456789"

  datatype Option<+T> = None | Some(value: T)

  datatype State = State(assignments: map<UserId, Room>, incomplete: map<UserId, Room>)

  /** The state of a bot whose two files do not exist yet: reading a missing
      file gives the empty map, so nobody is assigned and nobody is pending,
      and the invariant below holds from the start. */
  function Initial(): (s: State)
    ensures s.assignments == map[] && s.incomplete == map[]
    ensures PendingWithinAssigned(s)
  {
    State(map[], map[])
  }

  /** Nobody is pending without being assigned: the invariant every handler
      and every job keeps. */
  ghost predicate PendingWithinAssigned(s: State)
  {
    s.incomplete.Keys <= s.assignments.Keys
  }
}
