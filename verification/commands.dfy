/** The three chat commands: `/add <user> <room>`, `/done` and `/incomplete`.

    Each handler takes the current state, the caller's id and (for `/add`)
    the command's arguments, and returns the new state together with the
    reply the bot sends back to the caller.
 */
module Commands {
  import opened Store
  import opened Listing

  /** What the bot answers; the wording of each message is left out. */
  datatype Reply =
    | Unauthorized                                    // not the administrator
    | Usage                                           // `/add` without exactly two arguments
    | Assigned(user: UserId, room: Room)              // `/add` succeeded
    | NoTasks                                         // `/done` by someone without an assignment
    | MarkedComplete                                  // `/done` accepted
    | NoIncomplete                                    // `/incomplete` with nobody pending
    | IncompleteList(lines: seq<(UserId, Room)>)      // `/incomplete`: one line per pending user

  datatype Outcome = Outcome(state: State, reply: Reply)

  /** `/add <user> <room>`: the administrator assigns (or reassigns) a user to
      a room. The pending map is not touched, so a user who is pending keeps
      the room recorded when they became pending. */
  function AddUser(s: State, caller: UserId, args: seq<string>): (o: Outcome)
    ensures caller != AdminId ==> o == Outcome(s, Unauthorized)
    ensures caller == AdminId && |args| != 2 ==> o == Outcome(s, Usage)
    ensures caller == AdminId && |args| == 2 ==>
              && o.reply == Assigned(args[0], args[1])
              && o.state.assignments.Keys == s.assignments.Keys + {args[0]}
              && o.state.assignments[args[0]] == args[1]
              && (forall u :: u in s.assignments && u != args[0] ==>
                    o.state.assignments[u] == s.assignments[u])
              && o.state.incomplete == s.incomplete
  {
    if caller != AdminId then
      Outcome(s, Unauthorized)
    else if |args| != 2 then
      Outcome(s, Usage)
    else
      var user, room := args[0], args[1];
      Outcome(s.(assignments := s.assignments[user := room]), Assigned(user, room))
  }

  /** `/done`: the caller acknowledges the current cycle. Someone without an
      assignment is told so and nothing changes; otherwise the caller's
      pending entry, if any, is dropped and every other entry stays. */
  function MarkDone(s: State, caller: UserId): (o: Outcome)
    ensures caller !in s.assignments ==> o == Outcome(s, NoTasks)
    ensures caller in s.assignments ==>
              && o.reply == MarkedComplete
              && o.state.assignments == s.assignments
              && o.state.incomplete.Keys == s.incomplete.Keys - {caller}
              && (forall u :: u in o.state.incomplete ==> o.state.incomplete[u] == s.incomplete[u])
    ensures caller !in s.incomplete ==> o.state == s
  {
    if caller !in s.assignments then
      Outcome(s, NoTasks)
    else if caller in s.incomplete then
      Outcome(s.(incomplete := s.incomplete - {caller}), MarkedComplete)
    else
      Outcome(s, MarkedComplete)
  }

  /** `/incomplete`: the administrator reads the pending map. It never writes
      either map; an empty pending map is its own answer, otherwise the reply
      lists every pending user with their room, each exactly once. */
  method ListIncomplete(s: State, caller: UserId) returns (o: Outcome)
    ensures o.state == s
    ensures caller != AdminId ==> o.reply == Unauthorized
    ensures caller == AdminId ==> (o.reply == NoIncomplete <==> s.incomplete == map[])
    ensures caller == AdminId && s.incomplete != map[] ==>
              && o.reply.IncompleteList?
              && Enumerates(o.reply.lines, s.incomplete)
              && |o.reply.lines| == |s.incomplete|
  {
    if caller != AdminId {
      return Outcome(s, Unauthorized);
    }
    if s.incomplete == map[] {
      return Outcome(s, NoIncomplete);
    }
    var lines := Items(s.incomplete);
    return Outcome(s, IncompleteList(lines));
  }
}
