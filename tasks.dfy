/**
 * The task document of task-cli as values: the task record, the document
 * `{last_id, tasks}`, and each change the store makes to it as a pure
 * function. The class in store.dfy performs these changes in place and is
 * proved against the functions here; the lemmas here state what the
 * changes promise.
 */
module Tasks {

  import opened Wrappers

  /** A wall-clock reading, formatted `YYYY-MM-DD HH:MM:SS`; opaque to the model. */
  type Timestamp = string

  datatype Status = Todo | InProgress | Done

  datatype Task = Task(
    id: int,
    description: string,
    status: Status,
    createdAt: Timestamp,
    updatedAt: Timestamp)

  /** The whole persisted document: the id counter and the tasks in store order. */
  datatype Document = Document(lastId: int, tasks: seq<Task>)

  /** The document a missing store file is initialised with. */
  const Empty := Document(0, [])

  /** The text the file and the command line use for a status. */
  function StatusName(s: Status): string {
    match s
    case Todo => "todo"
    case InProgress => "in-progress"
    case Done => "done"
  }

  /** Accepts exactly the three status names and nothing else. */
  function ParseStatus(name: string): (r: Option<Status>)
    ensures r.Some? ==> StatusName(r.value) == name
    ensures r.None? ==> forall s: Status :: StatusName(s) != name
  {
    if name == "todo" then Some(Todo)
    else if name == "in-progress" then Some(InProgress)
    else if name == "done" then Some(Done)
    else None
  }

  lemma StatusRoundTrip(s: Status)
    ensures ParseStatus(StatusName(s)) == Some(s)
  {
  }

  /* ---------- Invariant of the document ---------- */

  predicate HasId(tasks: seq<Task>, id: int) {
    exists i :: 0 <= i < |tasks| && tasks[i].id == id
  }

  predicate DistinctIds(tasks: seq<Task>) {
    forall i, j :: 0 <= i < j < |tasks| ==> tasks[i].id != tasks[j].id
  }

  /** Every id in the store is one the counter has already handed out. */
  predicate IdsIssued(tasks: seq<Task>, lastId: int) {
    forall i :: 0 <= i < |tasks| ==> 1 <= tasks[i].id <= lastId
  }

  predicate WellFormed(d: Document) {
    0 <= d.lastId && IdsIssued(d.tasks, d.lastId) && DistinctIds(d.tasks)
  }

  /* ---------- Adding ---------- */

  /**
   * `add_task`: the counter goes up by one and a new todo task carrying
   * the new counter value is appended. The clock is read twice, so the
   * two timestamps are separate parameters.
   */
  function Added(d: Document, description: string, createdAt: Timestamp, updatedAt: Timestamp): (r: Document)
    ensures r.lastId == d.lastId + 1
    ensures |r.tasks| == |d.tasks| + 1 && r.tasks[..|d.tasks|] == d.tasks
    ensures r.tasks[|d.tasks|] == Task(r.lastId, description, Todo, createdAt, updatedAt)
  {
    var id := d.lastId + 1;
    Document(id, d.tasks + [Task(id, description, Todo, createdAt, updatedAt)])
  }

  /* ---------- Rewriting the first task with an id ---------- */

  /** What `update_task` and `change_status` write into the matching record. */
  datatype Edit = SetDescription(description: string) | SetStatus(status: Status)

  /** The record after an edit at time `now`: only the edited field and `updatedAt` change. */
  function Edited(t: Task, e: Edit, now: Timestamp): (r: Task)
    ensures r.id == t.id && r.createdAt == t.createdAt && r.updatedAt == now
    ensures e.SetDescription? ==> r.description == e.description && r.status == t.status
    ensures e.SetStatus? ==> r.status == e.status && r.description == t.description
  {
    match e
    case SetDescription(text) => t.(description := text, updatedAt := now)
    case SetStatus(s) => t.(status := s, updatedAt := now)
  }

  /** The tasks with the first one whose id is `id` edited; the rest as they were. */
  function Revised(tasks: seq<Task>, id: int, e: Edit, now: Timestamp): (r: seq<Task>)
    ensures |r| == |tasks|
  {
    if tasks == [] then []
    else if tasks[0].id == id then [Edited(tasks[0], e, now)] + tasks[1..]
    else [tasks[0]] + Revised(tasks[1..], id, e, now)
  }

  /**
   * When k is the first position holding `id`, the revision edits position k
   * and no other: earlier tasks, and later tasks even if they carry the same
   * id, are left as they were.
   */
  lemma {:induction false} RevisedFirstMatch(tasks: seq<Task>, id: int, e: Edit, now: Timestamp, k: nat)
    requires k < |tasks| && tasks[k].id == id
    requires forall j :: 0 <= j < k ==> tasks[j].id != id
    ensures Revised(tasks, id, e, now) == tasks[k := Edited(tasks[k], e, now)]
  {
    if k > 0 {
      RevisedFirstMatch(tasks[1..], id, e, now, k - 1);
      assert tasks[1..][k - 1 := Edited(tasks[k], e, now)] == tasks[k := Edited(tasks[k], e, now)][1..];
    }
  }

  /** A lookup that finds nothing changes nothing. */
  lemma {:induction false} RevisedNoMatch(tasks: seq<Task>, id: int, e: Edit, now: Timestamp)
    requires !HasId(tasks, id)
    ensures Revised(tasks, id, e, now) == tasks
  {
    if tasks != [] {
      assert tasks[0].id != id;
      RevisedNoMatch(tasks[1..], id, e, now);
    }
  }

  /** A revision never touches an id: position by position the ids are the same. */
  lemma {:induction false} RevisedKeepsIds(tasks: seq<Task>, id: int, e: Edit, now: Timestamp)
    ensures forall i :: 0 <= i < |tasks| ==> Revised(tasks, id, e, now)[i].id == tasks[i].id
  {
    if tasks != [] && tasks[0].id != id {
      RevisedKeepsIds(tasks[1..], id, e, now);
    }
  }

  /* ---------- Filtering: delete and list ---------- */

  /** Which tasks a comprehension keeps: `delete_task` keeps other ids, `list_tasks` one status. */
  datatype Criterion = IdIsNot(id: int) | StatusIs(status: Status)

  predicate Keeps(c: Criterion, t: Task) {
    match c
    case IdIsNot(id) => t.id != id
    case StatusIs(s) => t.status == s
  }

  /** The tasks the criterion keeps, in store order (a list comprehension). */
  function Filter(tasks: seq<Task>, c: Criterion): (r: seq<Task>)
    ensures |r| <= |tasks|
  {
    if tasks == [] then []
    else if Keeps(c, tasks[0]) then [tasks[0]] + Filter(tasks[1..], c)
    else Filter(tasks[1..], c)
  }

  /** xs is ys with some elements deleted and the rest left in order. */
  predicate IsSubsequence<T(==)>(xs: seq<T>, ys: seq<T>)
    decreases |ys|
  {
    if ys == [] then xs == []
    else (xs != [] && xs[0] == ys[0] && IsSubsequence(xs[1..], ys[1..])) || IsSubsequence(xs, ys[1..])
  }

  /** A task is in the result exactly when it is in the store and the criterion keeps it. */
  lemma {:induction false} FilterMembers(tasks: seq<Task>, c: Criterion)
    ensures forall t :: t in Filter(tasks, c) <==> t in tasks && Keeps(c, t)
  {
    if tasks != [] {
      FilterMembers(tasks[1..], c);
      assert tasks == [tasks[0]] + tasks[1..];
    }
  }

  /** Filtering keeps store order. */
  lemma {:induction false} FilterKeepsOrder(tasks: seq<Task>, c: Criterion)
    ensures IsSubsequence(Filter(tasks, c), tasks)
  {
    if tasks != [] {
      FilterKeepsOrder(tasks[1..], c);
    }
  }

  /** Filtering a concatenation filters each part: the comprehension goes front to back. */
  lemma {:induction false} FilterAppend(xs: seq<Task>, ys: seq<Task>, c: Criterion)
    ensures Filter(xs + ys, c) == Filter(xs, c) + Filter(ys, c)
  {
    if xs == [] {
      assert xs + ys == ys;
    } else {
      assert (xs + ys)[1..] == xs[1..] + ys;
      FilterAppend(xs[1..], ys, c);
    }
  }

  /** The length is unchanged exactly when every task is kept, and then so is the list. */
  lemma {:induction false} FilterLength(tasks: seq<Task>, c: Criterion)
    ensures |Filter(tasks, c)| == |tasks| <==> forall i :: 0 <= i < |tasks| ==> Keeps(c, tasks[i])
    ensures (forall i :: 0 <= i < |tasks| ==> Keeps(c, tasks[i])) ==> Filter(tasks, c) == tasks
  {
    if tasks != [] {
      FilterLength(tasks[1..], c);
      assert forall i :: 1 <= i < |tasks| ==> tasks[1..][i - 1] == tasks[i];
    }
  }

  /** A filter of tasks with distinct ids still has distinct ids. */
  lemma {:induction false} FilterDistinct(tasks: seq<Task>, c: Criterion)
    requires DistinctIds(tasks)
    ensures DistinctIds(Filter(tasks, c))
  {
    if tasks != [] {
      FilterDistinct(tasks[1..], c);
      FilterMembers(tasks[1..], c);
      var rest := Filter(tasks[1..], c);
      forall j | 0 <= j < |rest|
        ensures rest[j].id != tasks[0].id
      {
        assert rest[j] in tasks[1..];
      }
    }
  }

  /** `delete_task`: the tasks other than those with the id. */
  function Without(tasks: seq<Task>, id: int): (r: seq<Task>)
    ensures forall t :: t in r <==> t in tasks && t.id != id
  {
    FilterMembers(tasks, IdIsNot(id));
    Filter(tasks, IdIsNot(id))
  }

  /**
   * Deleting removes every task with the id and no other, keeps store order,
   * and shrinks the list exactly when the id was present.
   */
  lemma WithoutRemovesExactly(tasks: seq<Task>, id: int)
    ensures forall t :: t in Without(tasks, id) <==> t in tasks && t.id != id
    ensures !HasId(Without(tasks, id), id)
    ensures IsSubsequence(Without(tasks, id), tasks)
    ensures |Without(tasks, id)| < |tasks| <==> HasId(tasks, id)
    ensures !HasId(tasks, id) ==> Without(tasks, id) == tasks
  {
    FilterMembers(tasks, IdIsNot(id));
    FilterKeepsOrder(tasks, IdIsNot(id));
    FilterLength(tasks, IdIsNot(id));
  }

  /** `list_tasks`: every task without a filter, else those whose status equals it. */
  function Selected(tasks: seq<Task>, filter: Option<Status>): (r: seq<Task>)
    ensures filter.None? ==> r == tasks
    ensures filter.Some? ==> forall t :: t in r <==> t in tasks && t.status == filter.value
  {
    match filter
    case None => tasks
    case Some(s) =>
      FilterMembers(tasks, StatusIs(s));
      Filter(tasks, StatusIs(s))
  }

  /** Listing returns exactly the tasks with the requested status, in store order. */
  lemma SelectedExactly(tasks: seq<Task>, s: Status)
    ensures forall t :: t in Selected(tasks, Some(s)) <==> t in tasks && t.status == s
    ensures IsSubsequence(Selected(tasks, Some(s)), tasks)
  {
    FilterMembers(tasks, StatusIs(s));
    FilterKeepsOrder(tasks, StatusIs(s));
  }

  /** A filtered listing is empty exactly when no task has the status. */
  lemma SelectedEmpty(tasks: seq<Task>, s: Status)
    ensures Selected(tasks, Some(s)) == [] <==> forall i :: 0 <= i < |tasks| ==> tasks[i].status != s
  {
    FilterMembers(tasks, StatusIs(s));
    var r := Selected(tasks, Some(s));
    if r != [] {
      assert r[0] in r;
    } else {
      forall i | 0 <= i < |tasks|
        ensures tasks[i].status != s
      {
        assert tasks[i] in tasks;
      }
    }
  }

  /* ---------- Changes to the document ---------- */

  /** One store operation that may write the document, with the clock readings it uses. */
  datatype Change =
    | Create(description: string, createdAt: Timestamp, updatedAt: Timestamp)
    | Revise(id: int, edit: Edit, now: Timestamp)
    | Remove(id: int)

  /** The document after the change (for a lookup that fails, the same document). */
  function Apply(d: Document, c: Change): (r: Document)
    ensures r.lastId == d.lastId + (if c.Create? then 1 else 0)
    ensures c.Create? ==> |r.tasks| == |d.tasks| + 1 && r.tasks[..|d.tasks|] == d.tasks
    ensures c.Revise? ==> |r.tasks| == |d.tasks|
    ensures c.Remove? ==> forall t :: t in r.tasks <==> t in d.tasks && t.id != c.id
  {
    match c
    case Create(text, createdAt, updatedAt) => Added(d, text, createdAt, updatedAt)
    case Revise(id, e, now) => Document(d.lastId, Revised(d.tasks, id, e, now))
    case Remove(id) => Document(d.lastId, Without(d.tasks, id))
  }

  /** Whether the operation saves the document: an add always, the others only when the id is found. */
  predicate Writes(d: Document, c: Change) {
    c.Create? || HasId(d.tasks, c.id)
  }

  /** A change that does not save leaves the document as it was. */
  lemma NoWriteNoChange(d: Document, c: Change)
    ensures !Writes(d, c) ==> Apply(d, c) == d
    ensures Apply(d, c).lastId >= d.lastId
  {
    if !Writes(d, c) {
      match c
      case Revise(id, e, now) => RevisedNoMatch(d.tasks, id, e, now);
      case Remove(id) => WithoutRemovesExactly(d.tasks, id);
    }
  }

  /** Every change keeps ids distinct and no greater than the counter. */
  lemma ApplyPreservesWellFormed(d: Document, c: Change)
    requires WellFormed(d)
    ensures WellFormed(Apply(d, c))
  {
    match c
    case Create(text, createdAt, updatedAt) =>
      var r := Apply(d, c);
      assert forall i :: 0 <= i < |d.tasks| ==> r.tasks[i] == d.tasks[i];
    case Revise(id, e, now) =>
      RevisedKeepsIds(d.tasks, id, e, now);
    case Remove(id) =>
      FilterMembers(d.tasks, IdIsNot(id));
      FilterDistinct(d.tasks, IdIsNot(id));
      var r := Without(d.tasks, id);
      forall i | 0 <= i < |r|
        ensures 1 <= r[i].id <= d.lastId
      {
        assert r[i] in d.tasks;
      }
  }

  /** The document after a run of changes, one invocation each. */
  function ApplyAll(d: Document, cs: seq<Change>): Document
    decreases |cs|
  {
    if cs == [] then d else ApplyAll(Apply(d, cs[0]), cs[1..])
  }

  /** The ids that the adds in a run of changes hand out, in order. */
  function IssuedIds(d: Document, cs: seq<Change>): seq<int>
    decreases |cs|
  {
    if cs == [] then []
    else (if cs[0].Create? then [d.lastId + 1] else []) + IssuedIds(Apply(d, cs[0]), cs[1..])
  }

  lemma {:induction false} ApplyAllPreservesWellFormed(d: Document, cs: seq<Change>)
    requires WellFormed(d)
    ensures WellFormed(ApplyAll(d, cs))
    decreases |cs|
  {
    if cs != [] {
      ApplyPreservesWellFormed(d, cs[0]);
      ApplyAllPreservesWellFormed(Apply(d, cs[0]), cs[1..]);
    }
  }

  /**
   * Ids are never reused: the adds of any run of changes, deletes included,
   * hand out the next counter values one after the other, and the counter
   * ends exactly that many above where it started.
   */
  lemma {:induction false} IssuedIdsConsecutive(d: Document, cs: seq<Change>)
    ensures ApplyAll(d, cs).lastId == d.lastId + |IssuedIds(d, cs)|
    ensures forall k :: 0 <= k < |IssuedIds(d, cs)| ==> IssuedIds(d, cs)[k] == d.lastId + 1 + k
    decreases |cs|
  {
    if cs != [] {
      IssuedIdsConsecutive(Apply(d, cs[0]), cs[1..]);
    }
  }

  /** In a well-formed document, every id handed out later differs from every id present now. */
  lemma IssuedIdsFresh(d: Document, cs: seq<Change>)
    requires WellFormed(d)
    ensures forall k, i :: 0 <= k < |IssuedIds(d, cs)| && 0 <= i < |d.tasks| ==>
      IssuedIds(d, cs)[k] > d.tasks[i].id
  {
    IssuedIdsConsecutive(d, cs);
  }

  /* ---------- What the store operations print ---------- */

  /** The line an invocation prints, as a value. */
  datatype Report =
    | TaskAdded(id: int)                    // Task added successfully (ID: <id>)
    | TaskUpdated(id: int)                  // Task <id> updated
    | TaskDeleted(id: int)                  // Task <id> deleted
    | TaskMarked(id: int, status: Status)   // Task <id> marked as <status>
    | TaskNotFound                          // Task not found
    | Listing(tasks: seq<Task>)             // one line per task
    | NoTasksFound                          // No tasks found.
    | Usage                                 // Usage: task-cli <command> [arguments]
    | UnknownCommand                        // Unknown command
    | InvalidFilter                         // Invalid filter. Use: done, todo, in-progress
    | MissingArgument                       // the interpreter stops on an IndexError
    | NotAnInteger(word: string)            // the interpreter stops on a ValueError

  /** The report of a change made to document d. */
  function Reply(d: Document, c: Change): (r: Report)
    ensures r == TaskNotFound <==> !Writes(d, c)
  {
    match c
    case Create(_, _, _) => TaskAdded(d.lastId + 1)
    case Revise(id, e, _) =>
      if !HasId(d.tasks, id) then TaskNotFound
      else if e.SetDescription? then TaskUpdated(id)
      else TaskMarked(id, e.status)
    case Remove(id) => if HasId(d.tasks, id) then TaskDeleted(id) else TaskNotFound
  }

  /** The report of a listing: the selected tasks, or the "no tasks" line when there are none. */
  function ListReport(tasks: seq<Task>, filter: Option<Status>): (r: Report)
    ensures r == NoTasksFound || r == Listing(Selected(tasks, filter))
    ensures r == NoTasksFound <==> Selected(tasks, filter) == []
  {
    var selected := Selected(tasks, filter);
    if selected == [] then NoTasksFound else Listing(selected)
  }
}
