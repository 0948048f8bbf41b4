/** Properties of the bookkeeping that relate several calls: idempotence,
    what survives which step, and the invariant over whole runs.
 */
module Properties {
  import opened Store
  import opened Commands
  import opened Jobs
  import opened Bot

  /** A second rollover in a row finds every assigned user already pending. */
  lemma RolloverIdempotent(s: State)
    ensures Rollover(Rollover(s)) == Rollover(s)
  {
  }

  /** After a rollover nobody assigned is missing from the pending map. */
  lemma RolloverCoversAssignments(s: State)
    ensures s.assignments.Keys <= Rollover(s).incomplete.Keys
    ensures PendingWithinAssigned(s) ==> Rollover(s).incomplete.Keys == s.assignments.Keys
  {
  }

  /** A second `/done` by the same user answers the same and changes nothing more. */
  lemma MarkDoneIdempotent(s: State, u: UserId)
    ensures MarkDone(MarkDone(s, u).state, u) == MarkDone(s, u)
  {
  }

  /** Reassigning a pending user does not touch their pending entry: it still
      names the room they were pending for, not the new one. */
  lemma ReassignKeepsPendingRoom(s: State, u: UserId, room: Room)
    requires u in s.incomplete
    ensures var t := AddUser(s, AdminId, [u, room]).state;
            && t.assignments[u] == room
            && t.incomplete[u] == s.incomplete[u]
  {
  }

  /** `/done` does not outlast the next rollover: the scheduled job runs
      daily, and the next run makes the user pending again with the room
      they are assigned to. */
  lemma DoneThenRolloverRepends(s: State, u: UserId)
    requires u in s.assignments
    ensures u !in MarkDone(s, u).state.incomplete
    ensures var t := Rollover(MarkDone(s, u).state);
            u in t.incomplete && t.incomplete[u] == s.assignments[u]
  {
  }

  /** From any state that keeps the invariant, every run keeps it. */
  lemma {:induction false} RunPreservesInvariant(s: State, events: seq<Event>)
    requires PendingWithinAssigned(s)
    ensures PendingWithinAssigned(Run(s, events))
    decreases |events|
  {
    if events != [] {
      RunPreservesInvariant(Next(s, events[0]), events[1..]);
    }
  }

  /** Every state the bot can reach from empty files keeps the invariant. */
  lemma ReachableStatesKeepInvariant(events: seq<Event>)
    ensures PendingWithinAssigned(Run(Initial(), events))
  {
    RunPreservesInvariant(Initial(), events);
  }

  /** Nothing ever removes an assignment. */
  lemma {:induction false} AssignmentsNeverShrink(s: State, events: seq<Event>)
    ensures s.assignments.Keys <= Run(s, events).assignments.Keys
    decreases |events|
  {
    if events != [] {
      AssignmentsNeverShrink(Next(s, events[0]), events[1..]);
    }
  }

  /** Only the rollover job makes anyone pending: a run without it never adds
      a key to the pending map. */
  lemma {:induction false} PendingOnlyFromRollover(s: State, events: seq<Event>)
    requires forall i :: 0 <= i < |events| ==> !events[i].RolloverJob?
    ensures Run(s, events).incomplete.Keys <= s.incomplete.Keys
    decreases |events|
  {
    if events != [] {
      PendingOnlyFromRollover(Next(s, events[0]), events[1..]);
    }
  }

  /** A pending entry stays, with its room, until its own user sends `/done`:
      no other command and no job overwrites or removes it. */
  lemma {:induction false} PendingUntilDone(s: State, events: seq<Event>, u: UserId)
    requires u in s.incomplete
    requires forall i :: 0 <= i < |events| ==> events[i] != DoneCommand(u)
    ensures u in Run(s, events).incomplete
    ensures Run(s, events).incomplete[u] == s.incomplete[u]
    decreases |events|
  {
    if events != [] {
      var t := Next(s, events[0]);
      assert u in t.incomplete && t.incomplete[u] == s.incomplete[u];
      PendingUntilDone(t, events[1..], u);
    }
  }

  /** A week as the code runs it: two users assigned, a rollover, the first
      user's `/done`, and the next rollover, which makes that user pending again. */
  lemma ScenarioTwoUsers()
    ensures var s1 := AddUser(Initial(), AdminId, ["u1", "101"]).state;
            var s2 := AddUser(s1, AdminId, ["u2", "202"]).state;
            var s3 := Rollover(s2);
            var s4 := MarkDone(s3, "u1").state;
            var s5 := Rollover(s4);
            && s3.incomplete == map["u1" := "101", "u2" := "202"]
            && s4.incomplete == map["u2" := "202"]
            && s5.incomplete == map["u1" := "101", "u2" := "202"]
  {
  }

  /** `/done` from someone never assigned is answered with "no tasks" and
      leaves the pending map as it was. */
  lemma ScenarioUnassignedDone()
    ensures var s := Rollover(AddUser(Initial(), AdminId, ["u1", "101"]).state);
            MarkDone(s, "u3") == Outcome(s, NoTasks)
  {
  }
}
