# Command-line agenda — a Dafny model

`cmd_line_agenda.py` is a terminal to-do agenda. An `Agenda` keeps a dictionary
from calendar dates to lists of tasks (a description and a status,
`NOT_STARTED`, `IN_PROGRESS` or `DONE`), together with the earliest and the
farthest date it tracks. It is read from and written to a plain-text file: one
block per day, its ISO date on the first line, then one line per task,
`STATUS description`, with blocks separated by an empty line. The
`AgendaCommandLineController` reads one command per line (`a`, `r`, `m`, `u`,
`vu`, `vp`, `vl`, `s`, `help`, the empty line, `sq`, `quit`), turns a date
argument (`today`, `now`, `+N` or an ISO date) into a date, and calls the
store.

This model has four layers:

- `Text` and `Dates`: the pieces of Python's string library the program uses
  (`split()`, `split(sep)`, `strip()`, `' '.join`, `int()`), dates as day
  ordinals, and `date_range_inclusive`.
- `AgendaSpec` and `AgendaFormat`: the store as values (`AgendaData`), every
  store operation as a function, and the file format (what `save` writes and
  what the loading constructor reads).
- `AgendaStore.Agenda`: a class whose fields are the dictionary, its key order
  and the two bounds. Its methods are proved to leave `Data()` equal to the
  specification function applied to the old state.
- `ControllerSpec`, `ControllerLaws` and `AgendaController.Controller`: the
  handlers and one turn of the `go` loop, with the outcome of each line
  (`Shown`, `Failed` inside the `try`, `Crash` outside it, `Invalid`, `Saved`,
  `SaveAndQuit`, `AskQuit`).

`AgendaLaws`, `AgendaFormat` and `ControllerLaws` hold the properties that
relate several operations:

- the save/load round trip;
- the invariants each operation keeps (the key order is exact, both bounds are
  tracked, descriptions are unique within a day);
- add-then-remove;
- the three-step status cycle;
- when the tracked range stays gap-free and when it does not;
- which command lines leave the tasks untouched.

Modelling conventions:

- `date.today()` is a parameter `today`.
- `isoformat`/`fromisoformat` is a pair of functions `DateFormat(render, parse)`.
  The predicate `IsoLike` states the two facts the file format relies on: a
  rendered date parses back, and it is a non-empty word.
- The insertion order of the Python dictionary is the field `order`.
- An exception is a `Failure`, or an `Option` error, carrying an `Error` value.
  It names which raise it models: `KeyError` on an untracked date, the failed
  `assert` on an index, the duplicate check, `ValueError` from `TaskStatus(...)`
  or `int()` or `fromisoformat`, and `IndexError` on a missing word.

## Model

| member | source | states |
|---|---|---|
| Dates.DateRangeInclusive | cmd_line_agenda.py:681-689 | the list runs from `start` to `end` inclusive, one day per step, increasing when `start <= end` and decreasing otherwise; its length is the distance plus one |
| AgendaSpec.ParseStatus | cmd_line_agenda.py:21-24 | `TaskStatus(token)` succeeds only on a token that is some status's value, and gives that status |
| AgendaSpec.ParseStatusName | cmd_line_agenda.py:21-24 | every status's value reads back as that status |
| AgendaSpec.Blank | cmd_line_agenda.py:66-68 | without a file the agenda holds only today, with no tasks, and both bounds are today; this state is well formed, gap-free and unique |
| AgendaSpec.Track | cmd_line_agenda.py:283-284 | an untracked date gets an empty list; every other date and both bounds are unchanged |
| AgendaSpec.AddDaysSpec | cmd_line_agenda.py:123-130 | after `_add_days(from, to)` every date of the range is tracked, existing lists are unchanged, new dates are empty and no other date is added |
| AgendaSpec.RefreshSpec | cmd_line_agenda.py:282-289 | after a refresh today is tracked; `farthest` becomes today if it was earlier; existing lists are kept; added dates are empty and lie between today and the old `farthest`; when `farthest` was later, every date from today to it is tracked |
| AgendaSpec.RefreshKeepsWellFormed | cmd_line_agenda.py:282-289 | a refresh keeps the key order exact, both bounds tracked and no date beyond `farthest` |
| AgendaSpec.AddTaskSpec | cmd_line_agenda.py:170-181 | `add_task` fails, with the duplicate error, exactly when the day already has a task with that description |
| AgendaSpec.ExtendForward | cmd_line_agenda.py:177-179 | a day beyond `farthest` tracks every date from the old `farthest` to it with empty lists and becomes the new `farthest`; otherwise nothing changes |
| AgendaSpec.RemoveFirst | cmd_line_agenda.py:203 | `list.remove(t)` drops exactly one occurrence of `t`: the multiset loses `t` and the length drops by one |
| AgendaSpec.RemoveFirstIsFirst | cmd_line_agenda.py:203 | the task removed is the first one equal to `t`, and the other tasks keep their order |
| AgendaSpec.RemoveTaskSpec | cmd_line_agenda.py:199-204 | `remove_task` fails exactly on an untracked day (the key error) or an index outside `0..len-1` (the failed assert), and otherwise returns the task at that index |
| AgendaSpec.ModifyTaskSpec | cmd_line_agenda.py:225-233 | `modify_task` fails exactly on an untracked day, a bad index or a description already on that day, and otherwise returns the old description |
| AgendaSpec.UpdateStatusSpec | cmd_line_agenda.py:251-257 | `update_task_status` fails exactly on an untracked day or a bad index, and otherwise returns the old status |
| AgendaLaws.AddDaysNoop | cmd_line_agenda.py:127-129 | filling a range that is already tracked changes nothing |
| AgendaLaws.RefreshIdempotent | cmd_line_agenda.py:282-289 | refreshing twice on the same day is the same as refreshing once |
| AgendaLaws.RefreshKeepsContiguity | cmd_line_agenda.py:282-289 | a refresh keeps the range from `earliest` to `farthest` gap-free when `farthest` is at least yesterday |
| AgendaLaws.RefreshLeavesGap | cmd_line_agenda.py:286-287 | when `farthest` is before yesterday, the refresh moves `farthest` to today without tracking yesterday, so the range has a hole |
| AgendaLaws.AddTaskSucceeds | cmd_line_agenda.py:170-181 | a new description is appended at the end of the day's list; every other list is kept and every newly tracked date is empty; `farthest` becomes the later of the day, the old `farthest` and today; the tracked dates become exactly the old ones, the day, today, the stretch from the old `farthest` to a later day, and the stretch from today to the new `farthest` when that is later than today (not the stretch from the old `farthest` up to today) |
| AgendaLaws.AddTaskKeepsWellFormed | cmd_line_agenda.py:170-181 | `add_task` keeps the key order exact, both bounds tracked and no date beyond `farthest` |
| AgendaLaws.AppendedKeepsWellFormed | cmd_line_agenda.py:171-179 | the append with its forward extension, before the refresh, keeps the agenda well formed |
| AgendaLaws.AppendedKeepsContiguity | cmd_line_agenda.py:171-179 | the append with its forward extension keeps the range gap-free |
| AgendaLaws.AddTaskRejectsDuplicate | cmd_line_agenda.py:151-153 | adding a description already on that day fails with the duplicate error |
| AgendaLaws.AddTaskBeforeEarliest | cmd_line_agenda.py:171-172 | a day before `earliest` gets tracked, but `earliest` does not move back to it |
| AgendaLaws.AddTaskKeepsUnique | cmd_line_agenda.py:151-153 | with the duplicate check, descriptions stay unique within every day |
| AgendaLaws.AddTaskKeepsContiguity | cmd_line_agenda.py:156-181 | `add_task` keeps the range gap-free, as its documentation promises, when the final refresh leaves no hole |
| AgendaLaws.RemoveFirstAt | cmd_line_agenda.py:202-203 | with unique descriptions, removing by value the task read at index `i` removes exactly position `i` |
| AgendaLaws.RemoveFirstNotPositional | cmd_line_agenda.py:202-203 | without unique descriptions, removing by value can take out an earlier equal task than the one at the index |
| AgendaLaws.RemoveTaskSucceeds | cmd_line_agenda.py:199-204 | with unique descriptions, removal returns `old[i]`, the day's list becomes `old[..i] + old[i+1..]`, and nothing else changes |
| AgendaLaws.RemoveTaskKeepsInvariants | cmd_line_agenda.py:199-204 | removal keeps the agenda well formed, gap-free if it was, and unique if it was |
| AgendaLaws.AddThenRemove | cmd_line_agenda.py:170-204 | removing a task right after adding it, at the index it was given, restores the day's list and returns that task |
| AgendaLaws.ModifyTaskSucceeds | cmd_line_agenda.py:225-233 | renaming changes only the description of entry `i`; its status, the other entries and the other days are kept, and uniqueness is kept |
| AgendaLaws.ModifyToSameRejected | cmd_line_agenda.py:228 | renaming a task to its own description fails with the duplicate error |
| AgendaLaws.UpdateStatusSucceeds | cmd_line_agenda.py:251-257 | a status change replaces only the status of entry `i`; its description, the other entries and the other days are kept |
| AgendaFormat.ParseTaskLine | cmd_line_agenda.py:83-85 | a task line with no word fails with the index error; otherwise its first word is the status's value and the description is the remaining words joined by single spaces |
| AgendaFormat.ParseTaskLines | cmd_line_agenda.py:83-85 | a block's task lines read exactly when every line reads, and then give one task per line, in order |
| AgendaFormat.ParseBlock | cmd_line_agenda.py:71-85 | a block of one line is skipped; a block with task lines is never skipped: an unreadable date line fails it with `BadDate`, and otherwise its first line is its date and its task `j` is what line `j + 1` reads as |
| AgendaFormat.ParseBlocks | cmd_line_agenda.py:70-85 | the file reads exactly when every block reads |
| AgendaFormat.Collect | cmd_line_agenda.py:61-93 | the blocks' dates are tracked; the bounds enclose them and today; the key order lists each date once |
| AgendaFormat.LoadSpec | cmd_line_agenda.py:61-96 | a loaded agenda is well formed and gap-free, and its bounds enclose today and every date; an existing file loads exactly when all its blocks read |
| AgendaFormat.LoadRejectsBadStatus | cmd_line_agenda.py:83-85 | one task line whose first word is not a status fails the whole load |
| AgendaFormat.LoadRejectsBadDate | cmd_line_agenda.py:79-80 | a block with task lines whose date line is not a date fails the whole load |
| AgendaFormat.SaveTextIsStripped | cmd_line_agenda.py:104-113 | the text `save` writes is already stripped, so the loader's `strip()` keeps it |
| AgendaFormat.SaveTextBlocks | cmd_line_agenda.py:104-113 | the saved text is the days' blocks in key order, joined by empty lines, with the last block's trailing whitespace removed |
| AgendaFormat.SavedTextParses | cmd_line_agenda.py:61-113 | loading the saved text reads back the days that have tasks, in key order, each with its tasks |
| AgendaFormat.SaveLoadRoundTrip | cmd_line_agenda.py:61-113 | saving then loading succeeds and gives back every day that has tasks with the same tasks in the same order; every other loaded day is empty |
| Text.SplitWsJoin | cmd_line_agenda.py:84-85 | splitting words joined by single spaces gives the same words back |
| Text.JoinedWordsNormalized | cmd_line_agenda.py:84-85 | words joined by single spaces are already in the form `' '.join(s.split())` produces |
| AgendaFormat.ParsedLinesSavable | cmd_line_agenda.py:83-85 | a task read from a line has the words after its status, joined by single spaces, as its description, which `save` writes back on one line unchanged |
| AgendaFormat.ParsedBlocksSavable | cmd_line_agenda.py:70-85 | every task read from a file has such a savable description |
| AgendaFormat.CollectedSavable | cmd_line_agenda.py:61-93 | the loading loop, fed savable entries, builds a savable state |
| AgendaFormat.LoadIsSavable | cmd_line_agenda.py:61-96 | every agenda the loading constructor builds is savable, so the round trip applies to it |
| AgendaStore.Agenda.Empty | cmd_line_agenda.py:62-64 | the loader starts from an empty dictionary with both bounds at today |
| AgendaStore.Agenda.Load | cmd_line_agenda.py:61-96 | the loading constructor fails exactly as `LoadSpec` does; otherwise it leaves a fresh, well-formed, gap-free and savable agenda equal to `LoadSpec` |
| AgendaStore.Agenda.LoadBlocks | cmd_line_agenda.py:70-93 | the block loop fails with the first bad block's error; otherwise it leaves the collected state |
| AgendaStore.Agenda.LoadBlock | cmd_line_agenda.py:71-93 | one turn of the block loop fails exactly when the block does not read; otherwise it absorbs the block's date, its tasks and the bounds |
| AgendaStore.Agenda.ReadTasks | cmd_line_agenda.py:82-85 | the task loop fails exactly when some line does not read; otherwise the day's list becomes the lines' tasks and nothing else changes |
| AgendaStore.Agenda.Save | cmd_line_agenda.py:104-113 | `save` writes `SaveText` of the current state |
| AgendaStore.Agenda.TrackDay | cmd_line_agenda.py:171-172 | an untracked day gets an empty list |
| AgendaStore.Agenda.AddDays | cmd_line_agenda.py:123-130 | the loop leaves `AddDaysSpec` of the old state |
| AgendaStore.Agenda.GetTasks | cmd_line_agenda.py:142-146 | a tracked day gives its list; an untracked day gives the key error |
| AgendaStore.Agenda.CheckNotDuplicate | cmd_line_agenda.py:151-153 | the check passes exactly when the day is tracked and has no task with that description |
| AgendaStore.Agenda.AddTask | cmd_line_agenda.py:170-181 | the new state is `AddTaskSpec` of the old state; a failure leaves the state unchanged; a valid agenda stays valid |
| AgendaStore.Agenda.RemoveTask | cmd_line_agenda.py:199-204 | the new state and the removed task are `RemoveTaskSpec`'s; a failure leaves the state unchanged |
| AgendaStore.Agenda.ModifyTask | cmd_line_agenda.py:225-233 | the new state and the old description are `ModifyTaskSpec`'s; a failure leaves the state unchanged |
| AgendaStore.Agenda.UpdateTaskStatus | cmd_line_agenda.py:251-257 | the new state and the old status are `UpdateStatusSpec`'s; a failure leaves the state unchanged |
| AgendaStore.Agenda.LatestDate | cmd_line_agenda.py:265-266 | in a valid agenda, `farthest` is tracked and no tracked date is later |
| AgendaStore.Agenda.EarliestDate | cmd_line_agenda.py:274-275 | in a valid agenda, `earliest` is tracked and is no later than `farthest` |
| AgendaStore.Agenda.RefreshTodayDate | cmd_line_agenda.py:282-289 | the new state is `RefreshSpec` of the old one, and a valid agenda stays valid |
| ControllerSpec.PlusOperandIsSplit | cmd_line_agenda.py:614 | `split('+')[1]` is the text between the first `+` and the next one, or the end |
| ControllerSpec.ParseDate | cmd_line_agenda.py:606-616 | `today` and `now` give today; otherwise a `+` anywhere makes the result today plus `int()` of its operand; otherwise the ISO date, with the value error when either read fails |
| ControllerSpec.NextStatus | cmd_line_agenda.py:581-585 | the next status is never the current one |
| ControllerSpec.VisitRange | cmd_line_agenda.py:330-332 | walking a range with `get_tasks` either shows it or fails with the key error |
| ControllerSpec.ViewUpcomingSpec | cmd_line_agenda.py:326-351 | `vu` leaves the refreshed agenda |
| ControllerSpec.ViewPastSpec | cmd_line_agenda.py:354-391 | `vp` leaves the refreshed agenda |
| ControllerSpec.ViewOverdueSpec | cmd_line_agenda.py:394-418 | `vl` leaves the refreshed agenda |
| ControllerSpec.ViewAgendaSpec | cmd_line_agenda.py:314-320 | the overview either shows or fails with the key error |
| ControllerSpec.AddItemSpec | cmd_line_agenda.py:563-567 | `a` with no argument fails with the index error |
| ControllerSpec.DayAndIndex | cmd_line_agenda.py:569-572 | `r`, `m` and `u` read their date and index exactly when there are two arguments, the date reads and the index is an integer |
| ControllerLaws.OffsetDateOfNumber | cmd_line_agenda.py:614 | the operand `N`, for the decimal digits of any natural `N`, gives the date N days after today, and `-N` the date N days before |
| ControllerLaws.OffsetDateRejects | cmd_line_agenda.py:614 | an operand that is empty, a bare sign, or has a character that is not a digit after the optional sign raises the value error |
| ControllerLaws.ParseDateOfPlus | cmd_line_agenda.py:609-614 | an argument holding a `+` is read by its operand alone, never as `today`, `now` or an ISO date |
| ControllerLaws.ParseDateOfPrefixed | cmd_line_agenda.py:613-614 | `X+Y`, with no `+` in `X` or `Y`, reads as the offset `Y` from today |
| ControllerLaws.ParseDateSameOperand | cmd_line_agenda.py:613-614 | two `+` arguments with the same operand read alike, whatever surrounds it |
| ControllerLaws.ParseDatePlusNumber | cmd_line_agenda.py:613-614 | `X+N` means N days after today, whatever `X` (without a `+`) is |
| ControllerLaws.ParseDatePlusNegative | cmd_line_agenda.py:613-614 | `X+-N` means N days before today |
| ControllerLaws.ParseDateReadsFirstOperand | cmd_line_agenda.py:613-614 | only the text between the first `+` and the next one counts: the prefix and anything after a second `+` are ignored |
| ControllerLaws.NextStatusCycle | cmd_line_agenda.py:581-585 | `next_enum` is a cycle of length three |
| ControllerLaws.RefreshKeepsUnique | cmd_line_agenda.py:282-289 | a refresh adds only empty days, so descriptions stay unique |
| ControllerLaws.UpcomingNeverFails | cmd_line_agenda.py:326-332 | `vu` never raises: after the refresh, every date from today to `farthest` is tracked |
| ControllerLaws.ContiguousViewsSucceed | cmd_line_agenda.py:314-418 | on a gap-free agenda that reaches at least yesterday and starts no later than today, `vp`, `vl` and the overview all show |
| ControllerLaws.GapBreaksOverview | cmd_line_agenda.py:286-287 | when `farthest` is before yesterday, `vl` fails with the key error, and the empty line, which runs outside the `try`, crashes the program |
| ControllerLaws.WhitespaceLineCrashes | cmd_line_agenda.py:646-648 | a non-empty line of only whitespace has no first word: the index error escapes the loop |
| ControllerLaws.QuitAliasIsInvalid | cmd_line_agenda.py:629-650 | `q` is not a quit command; it is reported as unrecognised |
| ControllerLaws.SaveQuitWithBlankIsInvalid | cmd_line_agenda.py:633-650 | `sq ` with a trailing blank is not `sq`, and its first word is not a command either |
| ControllerLaws.ViewsKeepTasks | cmd_line_agenda.py:314-418 | no view changes any task list, and the days a view adds are empty |
| ControllerLaws.HandlerKeepsTasks | cmd_line_agenda.py:527-592 | a handler that does not succeed changes no task list and adds only empty days, and `s` changes nothing |
| ControllerLaws.NoTaskChangesUnlessShown | cmd_line_agenda.py:621-657 | a line that fails, crashes, is unrecognised or quits changes no task list and adds only empty days; an unrecognised, quitting or saving line changes nothing at all |
| ControllerLaws.ViewsKeepInvariants | cmd_line_agenda.py:314-418 | the views keep the agenda well formed and unique |
| ControllerLaws.AddItemKeepsInvariants | cmd_line_agenda.py:563-567 | `a` keeps the agenda well formed and unique |
| ControllerLaws.RemoveItemKeepsInvariants | cmd_line_agenda.py:569-572 | `r` keeps the agenda well formed and unique |
| ControllerLaws.ModifyItemKeepsInvariants | cmd_line_agenda.py:574-578 | `m` keeps the agenda well formed and unique |
| ControllerLaws.UpdateItemKeepsInvariants | cmd_line_agenda.py:580-592 | `u` keeps the agenda well formed and unique |
| ControllerLaws.HandlerKeepsInvariants | cmd_line_agenda.py:527-592 | every handler keeps the agenda well formed and unique |
| ControllerLaws.StepKeepsInvariants | cmd_line_agenda.py:621-657 | every input line keeps the agenda well formed, and keeps descriptions unique within each day |
| ControllerLaws.AddItemAppends | cmd_line_agenda.py:563-567 | `a DATE WORDS...` appends a `NOT_STARTED` task described by the words joined with single spaces, and fails, with the duplicate error, exactly when that day already has that description |
| ControllerLaws.RefreshKeepsSavable | cmd_line_agenda.py:282-289 | a refresh adds only empty days, so every description stays savable |
| ControllerLaws.AddItemKeepsSavable | cmd_line_agenda.py:563-567 | `a` stores words joined by single spaces: the agenda stays savable |
| ControllerLaws.RemoveItemKeepsSavable | cmd_line_agenda.py:569-572 | `r` keeps only tasks that were already there |
| ControllerLaws.ModifyItemKeepsSavable | cmd_line_agenda.py:574-578 | `m` stores words joined by single spaces: the agenda stays savable |
| ControllerLaws.UpdateItemKeepsSavable | cmd_line_agenda.py:580-592 | `u` keeps every description |
| ControllerLaws.HandlerKeepsSavable | cmd_line_agenda.py:527-592 | every handler, given the words of a command line, keeps the agenda savable |
| ControllerLaws.StepKeepsSavable | cmd_line_agenda.py:621-657 | every input line keeps the agenda savable, so what `s` or `sq` writes always reads back |
| ControllerLaws.SaveAndQuitRestores | cmd_line_agenda.py:633-635 | `sq` writes a text from which loading, on any later day, restores every day that has tasks with the same tasks in order |
| AgendaController.Controller.constructor | cmd_line_agenda.py:527-529 | the controller holds the agenda and the date format it is given |
| AgendaController.Controller.WalkRange | cmd_line_agenda.py:330-332 | the `get_tasks` loop over `date_range_inclusive` stops with the key error at the first untracked date and otherwise shows |
| AgendaController.Controller.ViewUpcoming | cmd_line_agenda.py:547-548 | the result and the new state are `ViewUpcomingSpec` of the old state |
| AgendaController.Controller.ViewPast | cmd_line_agenda.py:550-551 | the result and the new state are `ViewPastSpec` of the old state |
| AgendaController.Controller.ViewOverdue | cmd_line_agenda.py:553-554 | the result and the new state are `ViewOverdueSpec` of the old state |
| AgendaController.Controller.ViewAgenda | cmd_line_agenda.py:544-545 | the result and the new state are `ViewAgendaSpec` of the old state |
| AgendaController.Controller.SaveAgenda | cmd_line_agenda.py:559-561 | the text written is `SaveText` of the agenda |
| AgendaController.Controller.AddItem | cmd_line_agenda.py:563-567 | the result and the new state are those `AddItemSpec` gives |
| AgendaController.Controller.RemoveItem | cmd_line_agenda.py:569-572 | the result and the new state are those `RemoveItemSpec` gives |
| AgendaController.Controller.ModifyItem | cmd_line_agenda.py:574-578 | the result and the new state are those `ModifyItemSpec` gives |
| AgendaController.Controller.UpdateItem | cmd_line_agenda.py:580-592 | the result and the new state are those `UpdateItemSpec` gives: the next status of the task read with Python's indexing |
| AgendaController.Controller.Dispatch | cmd_line_agenda.py:652-653 | calling `self.commands[name](args)` gives `HandlerSpec` |
| AgendaController.Controller.Step | cmd_line_agenda.py:621-657 | one turn of `go` gives `StepSpec`, keeps the agenda valid, and keeps descriptions unique and savable when they were |

## Left out

- Terminal I/O: every `print`, the colours, the welcome and help text, and the success and error messages. The views keep only what they read and the error they can raise.
- The input loop of `go` (`input()`): `Step` models one turn. The `quit` confirmation re-prompt is the reply `AskQuit`, with no answer read.
- Files: whether the agenda file exists and its text are the parameter `file` of `Load`; `save` returns the text instead of writing it.
- `date.today()`: a parameter. One value of `today` serves a whole command line, whereas the program calls `date.today()` afresh at each use (in `refresh_today_date` and again in the views), so a command that runs across midnight sees two dates there and one date in the model.
- The calendar itself: dates are day ordinals, and `isoformat`/`fromisoformat` are abstract, constrained by `IsoLike`.
- `OverflowError` from dates outside the years 1 to 9999.
- The exception messages: only which error is raised is kept.
- `int()`: underscores between digits, non-ASCII digits and surrounding whitespace are not accepted (the program's tokens come from `split()` and hold no whitespace).
- The first `Agenda.__init__` (cmd_line_agenda.py:31-41) is overridden by the second definition and is never used.
- `Agenda.print_agenda` (cmd_line_agenda.py:294-300), a debugging aid that only prints.
- Running under `python -O`, which drops the `assert` statements in `_add_days`, `remove_task`, `modify_task` and `update_task_status`: the model keeps them.
- The second `get_tasks` read in `update_status_item` (cmd_line_agenda.py:591): it only feeds the success message.
- ControllerSpec.ParseDate: it computes the `+` operand as the text before the next `+` (`UpTo`), not by calling `split`; `PlusOperandIsSplit` proves the two agree.
- `pretty_print` and `TextColors`: presentation only.
