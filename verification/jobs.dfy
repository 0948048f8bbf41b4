/** The two scheduled jobs: the reminder to every assigned user and the
    rollover that marks every assigned user pending for the new cycle.
 */
module Jobs {
  import opened Store
  import opened Listing

  /** One reminder: sent to chat `chatId`, labelled with the week number, naming the room. */
  datatype Reminder = Reminder(chatId: UserId, week: int, room: Room)

  /** Rollover: every assigned user who is not pending becomes pending with
      their current room; an entry already pending keeps the room it has. */
  function Rollover(s: State): (r: State)
    ensures r.assignments == s.assignments
    ensures r.incomplete.Keys == s.incomplete.Keys + s.assignments.Keys
    ensures forall u :: u in s.incomplete ==> r.incomplete[u] == s.incomplete[u]
    ensures forall u :: u in s.assignments && u !in s.incomplete ==>
              r.incomplete[u] == s.assignments[u]
  {
    // On keys of both maps, the right operand of `+` wins.
    s.(incomplete := s.assignments + s.incomplete)
  }

  /** The rollover job as the source writes it: walk the assignments and
      insert each user that is not yet pending. The walk computes `Rollover`
      whatever order the entries come in. */
  method CheckIncomplete(s: State) returns (r: State)
    ensures r == Rollover(s)
  {
    var pending := s.incomplete;
    var rest := s.assignments.Keys;
    while rest != {}
      invariant rest <= s.assignments.Keys
      invariant pending.Keys == s.incomplete.Keys + (s.assignments.Keys - rest)
      invariant forall u :: u in s.incomplete ==> pending[u] == s.incomplete[u]
      invariant forall u :: u in pending && u !in s.incomplete ==> pending[u] == s.assignments[u]
      decreases rest
    {
      var user :| user in rest;
      var room := s.assignments[user];
      if user !in pending {
        pending := pending[user := room];
      }
      rest := rest - {user};
    }
    r := s.(incomplete := pending);
  }

  /** The reminder job: one message per assignment, to the assigned user,
      naming their room and the week. Neither map is written. Sending is not
      guarded in the source: the first recipient the transport cannot reach
      ends the job, and the reminders already sent stay sent. */
  method NotifyUsers(s: State, week: int, unreachable: set<UserId>)
    returns (r: State, sent: seq<Reminder>, failed: Option<UserId>)
    ensures r == s
    ensures forall i :: 0 <= i < |sent| ==>
              && sent[i].week == week
              && sent[i].chatId in s.assignments
              && sent[i].room == s.assignments[sent[i].chatId]
              && sent[i].chatId !in unreachable
    ensures forall i, j :: 0 <= i < j < |sent| ==> sent[i].chatId != sent[j].chatId
    ensures failed == None <==> s.assignments.Keys !! unreachable
    ensures failed.Some? ==> failed.value in s.assignments && failed.value in unreachable
    ensures failed == None ==> |sent| == |s.assignments|
    ensures failed == None ==>
              forall u :: u in s.assignments ==> exists i :: 0 <= i < |sent| && sent[i].chatId == u
  {
    var items := Items(s.assignments);
    sent := [];
    var i := 0;
    while i < |items|
      invariant 0 <= i <= |items|
      invariant |sent| == i
      invariant forall k :: 0 <= k < i ==>
                  sent[k] == Reminder(items[k].0, week, items[k].1) && items[k].0 !in unreachable
    {
      var (user, room) := items[i];
      if user in unreachable {
        return s, sent, Some(user);
      }
      sent := sent + [Reminder(user, week, room)];
      i := i + 1;
    }
    forall u | u in s.assignments ensures u !in unreachable {
      var k :| 0 <= k < |items| && items[k].0 == u;
    }
    return s, sent, None;
  }
}
