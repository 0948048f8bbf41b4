/** The bot as a whole: a sequence of events, each one a command from a chat
    or a run of a scheduled job, applied one after the other to the state.
    Handlers run one at a time; each is an atomic step.
 */
module Bot {
  import opened Store
  import opened Commands
  import opened Jobs

  datatype Event =
    | AddCommand(caller: UserId, args: seq<string>)
    | DoneCommand(caller: UserId)
    | IncompleteCommand(caller: UserId)
    | ReminderJob(week: int, unreachable: set<UserId>)
    | RolloverJob

  /** The state after one event. `/incomplete` and the reminder job hand back
      the state they were given; `Dispatch` checks this against the handlers. */
  function Next(s: State, e: Event): (r: State)
    ensures s.assignments.Keys <= r.assignments.Keys
    ensures PendingWithinAssigned(s) ==> PendingWithinAssigned(r)
    ensures !e.RolloverJob? ==> r.incomplete.Keys <= s.incomplete.Keys
    ensures !e.AddCommand? ==> r.assignments == s.assignments
  {
    match e
    case AddCommand(caller, args) => AddUser(s, caller, args).state
    case DoneCommand(caller) => MarkDone(s, caller).state
    case IncompleteCommand(_) => s
    case ReminderJob(_, _) => s
    case RolloverJob => Rollover(s)
  }

  /** One event handled by the handler or job it names. Whatever the event,
      the new state is the one `Next` gives, so the lemmas about runs of
      `Next` are lemmas about these handlers. */
  method Dispatch(s: State, e: Event) returns (r: State)
    ensures r == Next(s, e)
  {
    match e
    case AddCommand(caller, args) =>
      r := AddUser(s, caller, args).state;
    case DoneCommand(caller) =>
      r := MarkDone(s, caller).state;
    case IncompleteCommand(caller) =>
      var o := ListIncomplete(s, caller);
      r := o.state;
    case ReminderJob(week, unreachable) =>
      var after, sent, failed := NotifyUsers(s, week, unreachable);
      r := after;
    case RolloverJob =>
      r := CheckIncomplete(s);
  }

  /** The state after a whole sequence of events. */
  function Run(s: State, events: seq<Event>): State
    decreases |events|
  {
    if events == [] then s else Run(Next(s, events[0]), events[1..])
  }
}
