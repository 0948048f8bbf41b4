# CorridorTeleBot task bookkeeping, in Dafny

CorridorTeleBot is a Telegram bot that hands out weekly room-cleaning duties.
It keeps two JSON files: `assignments.json` (user → room) and
`incomplete_tasks.json` (user → room, for users who have not acknowledged the
current cycle). Three chat commands and two scheduled jobs read and rewrite them:

- `/add <user> <room>` (administrator only) assigns or reassigns a user;
- `/done` lets an assigned user acknowledge the cycle, clearing their pending entry;
- `/incomplete` (administrator only) lists the pending users;
- the reminder job sends every assigned user their room and the week number;
- the rollover job marks every assigned user who is not pending as pending, with
  their current room, and never overwrites an entry that is already pending.

This project models that bookkeeping. The two files are one immutable
`Store.State` record of two `map<string, string>`. A file that does not exist
reads as the empty map, so a fresh bot starts from `Store.Initial`. Each
handler is a transition from a state to a new state and a reply:

- `Commands.AddUser` and `Commands.MarkDone` are functions.
- `Jobs.Rollover` is the reference definition of the rollover.
- `Jobs.CheckIncomplete` is the source's loop, proved to compute `Jobs.Rollover`.
- `Commands.ListIncomplete` and `Jobs.NotifyUsers` enumerate a map with
  `Listing.Items`, which yields every entry once in some order, so they are
  methods. Both hand back the state unchanged.

`Bot.Next` and `Bot.Run` apply a sequence of events. `Bot.Dispatch` runs each
event through its handler and is proved to agree with `Bot.Next`. `Properties`
proves what holds over such runs. The central invariant is
`Store.PendingWithinAssigned`: every pending user is assigned.

Three behaviours of the code shape the model:

- `add_user` writes only the assignments file (main.py:32-35). A pending user
  who is reassigned therefore keeps the old room in the pending map
  (`Properties.ReassignKeepsPendingRoom`).
- The comments say the check runs at the "start of each week" (main.py:81) and
  that the jobs are weekly (main.py:102). main.py:104 registers the rollover
  with `run_daily`, however. A rollover after `/done` makes the user pending
  again, with no weekly boundary in between
  (`Properties.DoneThenRolloverRepends`, `Properties.ScenarioTwoUsers`).
- `send_message` at main.py:45 has no `try` around it. A failed send ends the
  loop, and the remaining users get no reminder (`Jobs.NotifyUsers`).

## Model

| member | source | states |
|---|---|---|
| `Commands.AddUser` | main.py:23-37 | A non-administrator gets "unauthorized" and an argument count other than two gets "usage"; both leave the state as it was. Otherwise the user maps to the new room, every other assignment keeps its room, only that key can be new, and the pending map is untouched. |
| `Commands.MarkDone` | main.py:51-64 | A caller without an assignment gets "no tasks" and nothing changes. An assigned caller gets "marked complete": assignments stay the same, the pending keys lose exactly the caller, and the remaining entries keep their rooms. A caller who was not pending changes nothing. |
| `Commands.ListIncomplete` | main.py:67-79 | The state is never changed. A non-administrator is rejected. For the administrator the "nobody pending" reply comes exactly when the pending map is empty; otherwise the reply lists every pending user with their room, once each, one line per entry. |
| `Jobs.Rollover` | main.py:82-90 | Assignments are unchanged. The pending keys become the old pending keys plus all assigned keys. An entry that was already pending keeps its room, and a newly pending user gets their assigned room. |
| `Jobs.CheckIncomplete` | main.py:83-90 | The insert-if-absent walk over the assignments yields exactly `Jobs.Rollover`, whatever order the entries come in. |
| `Jobs.NotifyUsers` | main.py:40-48 | Neither map is written. Each reminder goes to an assigned user, names that user's room and the given week, and no user gets two. With every recipient reachable, every assigned user gets exactly one. Otherwise the job stops at an unreachable assigned user and reports it. |
| `Store.Initial` | main.py:11-16 | With both files missing, both maps read as empty, so nobody is assigned or pending and the invariant holds from the start. |
| `Listing.Items` | main.py:77 | The entries of a map in some order: each element is an entry, no key twice, every key present, and as many elements as entries. |
| `Listing.EnumerationSize` | main.py:76-78 | Any listing that names each entry once has exactly as many lines as the map has entries. |
| `Bot.Next` | main.py:98-104 | One command or job never removes an assignment and keeps the pending-within-assigned invariant. Only the rollover can add pending keys, and only `/add` can change assignments. |
| `Bot.Dispatch` | main.py:98-104 | Running an event through the handler or job registered for it gives exactly the state `Bot.Next` gives, so the run lemmas hold of the handlers themselves. |
| `Properties.RolloverIdempotent` | main.py:86-88 | Two rollovers in a row give the same state as one. |
| `Properties.RolloverCoversAssignments` | main.py:86-88 | After a rollover every assigned user is pending. When the invariant held before, the pending keys are then exactly the assigned keys. |
| `Properties.MarkDoneIdempotent` | main.py:59-64 | A second `/done` by the same user gives the same reply and the same state as the first. |
| `Properties.ReassignKeepsPendingRoom` | main.py:32-35 | Reassigning a pending user changes their assignment to the new room. Their pending entry still names the old room. |
| `Properties.DoneThenRolloverRepends` | main.py:59-62 | `/done` removes the user from the pending map. The next rollover puts them back, with their assigned room. |
| `Properties.RunPreservesInvariant` | main.py:23-90 | From a state where every pending user is assigned, every sequence of commands and jobs reaches such a state. |
| `Properties.ReachableStatesKeepInvariant` | main.py:11-16 | Starting from missing files, every reachable state has every pending user assigned. |
| `Properties.AssignmentsNeverShrink` | main.py:34 | No sequence of events removes a key from the assignments. |
| `Properties.PendingOnlyFromRollover` | main.py:88 | A run without the rollover job never adds a key to the pending map. |
| `Properties.PendingUntilDone` | main.py:60-61 | Across any run without that user's `/done`, a pending entry stays pending with its original room. |
| `Properties.ScenarioTwoUsers` | main.py:32-34 | Assign u1→101 and u2→202, then roll over: {u1:101, u2:202} are pending. After u1's `/done`, only u2:202 is. The next rollover makes {u1:101, u2:202} pending again. |
| `Properties.ScenarioUnassignedDone` | main.py:55-57 | `/done` from a user who was never assigned answers "no tasks" and leaves the state unchanged. |

## Left out

- Telegram transport: `Update`, `reply_text`, `send_message`, `Updater` and polling are foreign calls. Replies are the tags of `Commands.Reply` and reminders are `Jobs.Reminder` values; the message texts are not modelled.
- A caller id is the string the handlers compare, `str(update.effective_user.id)`. The conversion from Telegram's integer id is outside the model.
- JSON file I/O (main.py:11-20) is represented by the two fields of `Store.State`. Encoding, write failures and partial writes are not modelled.
- The week number (main.py:41) depends on the wall clock and the ISO 8601 week calendar. It is an opaque `int` parameter of `Jobs.NotifyUsers`, used only as a label.
- `main()` (main.py:93-107): handler registration, the two `run_daily` jobs, and polling are wiring. `Bot.Next` takes their events in any order, and the times of day are not modelled. main.py:104 registers the rollover with `run_daily`, which is why `Properties.DoneThenRolloverRepends` matters. As written, main.py:103 never gets that far: `datetime` is the class imported at line 2, so `datetime.time(9, 0)` calls the class's `time` method with an integer and raises `TypeError`. `main()` then stops before either job is registered and before `start_polling`; the model describes the handlers as they would behave once started.
- Concurrency: handlers are atomic steps applied one at a time; the source has no locking.
- `Listing.Items`: the entries come in some order, each exactly once. `dict.items()` yields them in insertion order, and `json.dump`/`json.load` keep that order; the model does not track it.
- `Commands.ListIncomplete`: the lines come in some order, each entry exactly once. The source lists them in the dictionary's insertion order, which the model does not track.
- `Jobs.NotifyUsers`: the reminders go out in some order rather than insertion order. A failed send is modelled as a set of unreachable recipients; which exception `send_message` raises is not modelled.
