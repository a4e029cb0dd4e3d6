# task-cli, modelled in Dafny

task-cli is a command-line task tracker. It keeps one JSON document,
`{last_id, tasks}`, in `tasks.json`. `last_id` is a counter. `tasks` is the
ordered list of task records, and each record holds `id`, `description`,
`status` (`todo`, `in-progress` or `done`), `createdAt` and `updatedAt`.
The commands are `add`, `update`, `delete`, `mark-in-progress`, `mark-done`
and `list`. A run that reaches a store operation loads the document. `add`
always saves the whole document. `update`, `mark-*` and `delete` save only
when they find a task with the id, even if nothing in it changes. `list` never
saves. A run that prints the usage line, an unknown command, an invalid filter,
or stops on a bad id never loads the document.

This project models that store and its dispatcher:

- `wrappers.dfy`: the `Option` type.
- `decimal.dfy` (module `Decimal`): how an id argument is read as an integer
  and written back as text.
- `tasks.dfy` (module `Tasks`): the task record, the document, and every
  store operation as a pure function on documents. The lemmas here state what
  the operations promise. Ids are distinct and no greater than `last_id`, and
  every operation keeps that true. Ids are never reused. Only the first task
  with a matching id is edited. A lookup that finds nothing changes nothing.
  Filters keep store order.
- `store.dfy` (module `TaskStore`): class `Store`, the loaded document whose
  fields the operations update in place. `update_task` and `change_status`
  become one `while` loop with an early return. Each method is proved against
  the pure function in `Tasks`. The ghost counter `saves` records when a save
  would happen.
- `cli.dfy` (module `Cli`): `main`'s mapping from the command-line words to a
  command, as a pure function. The method `Dispatch` runs that command on the
  store.

The clock is a parameter. `add_task` reads it twice, so `AddTask` takes two
timestamps and does not claim that they are equal. Printed lines become values
of the `Report` datatype.

Behaviour of `Desktop/task/tasks.py` worth knowing:

- `add_task` reads the clock twice (lines 33-34), so `createdAt` and
  `updatedAt` of a new task can differ.
- `delete_task` keeps the tasks whose id differs (line 53), so it removes every
  task with the id.
- `update_task` and `change_status` return after the first task with the id
  (lines 48 and 69), so later tasks with the same id are not edited.
- `list` reads only the word after it (line 122). Any words after the filter
  are ignored.
- A missing id word raises an IndexError, and a word `int()` rejects raises a
  ValueError (lines 102, 107, 111, 115). Either stops the program before it
  prints anything. The model reports these as `MissingArgument` and
  `NotAnInteger`.

## Model

| member | source | states |
|---|---|---|
| `Tasks.Added` | Desktop/task/tasks.py:26-36 | the counter rises by exactly one; one task is appended at the end with the new counter as its id, status todo and the two clock readings; earlier tasks are unchanged |
| `Tasks.Edited` | Desktop/task/tasks.py:43-45 | an edit changes only the edited field (description or status) and `updatedAt`; id and `createdAt` never change |
| `Tasks.Revised` | Desktop/task/tasks.py:42-48 | editing by id never changes the number of tasks |
| `Tasks.RevisedFirstMatch` | Desktop/task/tasks.py:42-48 | when k is the first position holding the id, exactly position k is edited; earlier tasks and later tasks with the same id are untouched |
| `Tasks.RevisedNoMatch` | Desktop/task/tasks.py:49 | when no task has the id, the task list is unchanged |
| `Tasks.RevisedKeepsIds` | Desktop/task/tasks.py:63-69 | editing keeps every task's id at its position |
| `Tasks.ParseStatus` | Desktop/task/tasks.py:123 | a filter is accepted exactly when it is the name of one of the three statuses, and it then denotes that status |
| `Tasks.StatusRoundTrip` | Desktop/task/tasks.py:122-124 | every status's name is accepted as a filter for that same status |
| `Tasks.Filter` | Desktop/task/tasks.py:77 | a comprehension never yields more tasks than it reads |
| `Tasks.FilterMembers` | Desktop/task/tasks.py:53 | a task is in a filter's result exactly when it is in the store and the criterion keeps it |
| `Tasks.FilterKeepsOrder` | Desktop/task/tasks.py:77 | a filter's result is a subsequence of the store: the order is kept |
| `Tasks.FilterAppend` | Desktop/task/tasks.py:53 | filtering a concatenation filters each part and concatenates, so the result follows store order |
| `Tasks.FilterLength` | Desktop/task/tasks.py:53-54 | the length is unchanged exactly when every task is kept, and then the list is unchanged |
| `Tasks.FilterDistinct` | Desktop/task/tasks.py:57 | filtering tasks with distinct ids leaves distinct ids |
| `Tasks.WithoutRemovesExactly` | Desktop/task/tasks.py:51-59 | delete keeps exactly the tasks with other ids, in store order; no task with the id remains; the list shrinks exactly when the id was present, and otherwise it is unchanged |
| `Tasks.Without` | Desktop/task/tasks.py:53 | the comprehension keeps exactly the tasks of the store whose id differs; `WithoutRemovesExactly` adds order and length |
| `Tasks.Selected` | Desktop/task/tasks.py:74-77 | without a filter, every task; with one, exactly the tasks of the store with that status; `SelectedExactly` and `SelectedEmpty` add order and emptiness |
| `Tasks.Apply` | Desktop/task/tasks.py:26-70 | the effect of each operation on the document: only an add moves the counter, by one, and keeps earlier tasks as a prefix; an edit keeps the number of tasks; a delete keeps exactly the tasks with other ids |
| `Tasks.SelectedExactly` | Desktop/task/tasks.py:72-81 | a filtered listing holds exactly the tasks with that status, as a subsequence of the store |
| `Tasks.SelectedEmpty` | Desktop/task/tasks.py:76-80 | a filtered listing is empty, so "No tasks found." is printed, exactly when no task has the status |
| `Tasks.NoWriteNoChange` | Desktop/task/tasks.py:54-55 | an update, status change or delete that finds no task leaves the document unchanged; no operation lowers the counter |
| `Tasks.ApplyPreservesWellFormed` | Desktop/task/tasks.py:28-30 | add, update, status change and delete each keep ids distinct and between 1 and `last_id` |
| `Tasks.ApplyAllPreservesWellFormed` | Desktop/task/tasks.py:26-70 | any run of operations keeps that invariant |
| `Tasks.IssuedIdsConsecutive` | Desktop/task/tasks.py:28-30 | over any run of operations, deletes included, the adds hand out `last_id+1`, `last_id+2`, … in order, and the counter ends that many above its start |
| `Tasks.IssuedIdsFresh` | Desktop/task/tasks.py:28-30 | in a well-formed document, every id handed out later is greater than every id present now, so ids are never reused |
| `Tasks.Reply` | Desktop/task/tasks.py:38-70 | an operation reports not found exactly when it does not save |
| `Tasks.ListReport` | Desktop/task/tasks.py:79-81 | a listing reports "No tasks found." exactly when the selection is empty, and otherwise the selected tasks |
| `TaskStore.Store.Init` | Desktop/task/tasks.py:11-13 | a new store holds counter 0, no tasks, and is well formed |
| `TaskStore.Store.Load` | Desktop/task/tasks.py:15-17 | a loaded store holds the file's document |
| `TaskStore.Store.AddTask` | Desktop/task/tasks.py:26-38 | the store becomes `Added` of the old store; it reports the new id, saves once and keeps the invariant |
| `TaskStore.Store.ReviseFirst` | Desktop/task/tasks.py:42-49 | the loop finds the id exactly when the old list has it; it edits the first match only, saves only then, and otherwise leaves the store unchanged |
| `TaskStore.Store.UpdateTask` | Desktop/task/tasks.py:40-49 | the description of the first task with the id is set; it reports updated or not found and saves only when found |
| `TaskStore.Store.ChangeStatus` | Desktop/task/tasks.py:61-70 | the status of the first task with the id is set; it reports marked or not found and saves only when found |
| `TaskStore.Store.DeleteTask` | Desktop/task/tasks.py:51-59 | every task with the id is removed; the counter is unchanged; it reports deleted exactly when the list shrank, and only then saves |
| `TaskStore.Store.ListTasks` | Desktop/task/tasks.py:72-81 | it returns the selected tasks, or "No tasks found." when there are none; without a filter it returns all tasks in store order |
| `Decimal.ParseInt` | Desktop/task/tasks.py:102 | a word is accepted exactly when it is ASCII digits after an optional `+` or `-`, and every other word is rejected (the ValueError path); the value is the digits' decimal value, negated after `-` |
| `Decimal.LeadingZero` | Desktop/task/tasks.py:107 | a leading zero does not change a numeral's value, so `007` reads as 7 |
| `Decimal.IntRoundTrip` | Desktop/task/tasks.py:107 | every integer id, written in decimal, parses back to itself |
| `Cli.Join` | Desktop/task/tasks.py:98 | joining one word gives that word; joining none gives the empty description |
| `Cli.JoinSplit` | Desktop/task/tasks.py:103 | words without spaces, joined with single spaces, are recovered by splitting at spaces, so the description keeps every word |
| `Cli.IdArgument` | Desktop/task/tasks.py:111 | an id is present exactly when there is a second word and it parses as an integer, and the id is that integer |
| `Cli.IdFailure` | Desktop/task/tasks.py:102 | a rejected id is a missing argument exactly when there is no second word; otherwise it is that word, which `int()` rejects |
| `Cli.ParseArgs` | Desktop/task/tasks.py:91-129 | usage exactly when there are no words; unknown command exactly for a first word outside the six commands; `add` takes the rest of the words joined with single spaces; `update` takes the id from the second word and the words after it, joined, as the description; `delete`, `mark-in-progress` and `mark-done` take the id from the second word and map to in-progress and done; an unreadable id gives that id's failure; `list` alone is unfiltered, `list` with a status name filters by it, and any other word is an invalid filter |
| `Cli.ParseWords` | Desktop/task/tasks.py:110-116 | every command can be typed: `mark-in-progress` and `mark-done` map to their statuses, ids and one-word descriptions come back unchanged |
| `Cli.Dispatch` | Desktop/task/tasks.py:88-129 | refused requests and listings do not change or save the store; every other request applies its change and gives that change's report; the invariant is kept |

## Left out

- Reading and writing `tasks.json` and the JSON encoding are not modelled. `Store.Load` and `Store.Init` stand for the loaded or newly created document. The ghost counter `saves` stands for each write.
- The check in `init_file` for whether the file exists is not modelled. The caller chooses `Init` or `Load`.
- A file that cannot be read or parsed is not modelled.
- Status strings in the file other than the three names are not modelled: a task's status is one of three values.
- `now()` and its `strftime` format are not modelled. Timestamps are opaque strings passed in as parameters.
- The text of the printed lines is not modelled. Each line is a `Report` value, and a listing carries the selected tasks.
- Decimal.ParseInt: does not model Python's acceptance of surrounding whitespace, `_` between digits, or non-ASCII digits. Such words are rejected as `NotAnInteger`, although Python accepts them.
- Two runs against the same file at once are not modelled. The program has no locking.
