/**
 * The task store as the program holds it in memory: the loaded document
 * whose counter and task list the operations update in place. Loading and
 * saving the JSON file are not modelled; the object's fields are the file's
 * content, and the ghost counter `saves` counts the writes the operations
 * would make.
 */
module TaskStore {

  import opened Wrappers
  import opened Tasks

  class Store {
    var lastId: int
    var tasks: seq<Task>
    ghost var saves: nat

    /** The document as it would be written to the file. */
    function Doc(): Document
      reads this
    {
      Document(lastId, tasks)
    }

    ghost predicate Valid()
      reads this
    {
      WellFormed(Doc())
    }

    /** The store a first run creates: counter 0, no tasks. */
    constructor Init()
      ensures Doc() == Empty && Valid() && saves == 0
    {
      lastId := 0;
      tasks := [];
      saves := 0;
    }

    /** The store loaded from an existing file holding d. */
    constructor Load(d: Document)
      ensures Doc() == d && saves == 0
    {
      lastId := d.lastId;
      tasks := d.tasks;
      saves := 0;
    }

    /** `add_task`: bump the counter, append a todo task with the new id, save. */
    method AddTask(description: string, createdAt: Timestamp, updatedAt: Timestamp) returns (report: Report)
      modifies this
      ensures Doc() == Apply(old(Doc()), Create(description, createdAt, updatedAt))
      ensures report == Reply(old(Doc()), Create(description, createdAt, updatedAt))
      ensures report == TaskAdded(lastId) && lastId == old(lastId) + 1
      ensures saves == old(saves) + 1
      ensures old(Valid()) ==> Valid()
    {
      ghost var before := Doc();
      lastId := lastId + 1;
      var task := Task(lastId, description, Todo, createdAt, updatedAt);
      tasks := tasks + [task];
      saves := saves + 1;
      report := TaskAdded(task.id);
      if WellFormed(before) {
        ApplyPreservesWellFormed(before, Create(description, createdAt, updatedAt));
      }
    }

    /**
     * The loop shared by `update_task` and `change_status`: walk the tasks,
     * edit the first one whose id matches, save and stop; reaching the end
     * means the id is not there and nothing is saved.
     */
    method ReviseFirst(id: int, e: Edit, now: Timestamp) returns (found: bool)
      modifies this
      ensures found == HasId(old(tasks), id)
      ensures Doc() == Apply(old(Doc()), Revise(id, e, now))
      ensures saves == old(saves) + (if found then 1 else 0)
    {
      var i := 0;
      while i < |tasks|
        invariant 0 <= i <= |tasks|
        invariant tasks == old(tasks) && lastId == old(lastId) && saves == old(saves)
        invariant forall j :: 0 <= j < i ==> tasks[j].id != id
      {
        if tasks[i].id == id {
          RevisedFirstMatch(tasks, id, e, now, i);
          tasks := tasks[i := Edited(tasks[i], e, now)];
          saves := saves + 1;
          return true;
        }
        i := i + 1;
      }
      RevisedNoMatch(tasks, id, e, now);
      return false;
    }

    /** `update_task`: set the description of the first task with the id. */
    method UpdateTask(id: int, description: string, now: Timestamp) returns (report: Report)
      modifies this
      ensures Doc() == Apply(old(Doc()), Revise(id, SetDescription(description), now))
      ensures report == Reply(old(Doc()), Revise(id, SetDescription(description), now))
      ensures saves == old(saves) + (if report == TaskNotFound then 0 else 1)
      ensures old(Valid()) ==> Valid()
    {
      ghost var before := Doc();
      var found := ReviseFirst(id, SetDescription(description), now);
      report := if found then TaskUpdated(id) else TaskNotFound;
      if WellFormed(before) {
        ApplyPreservesWellFormed(before, Revise(id, SetDescription(description), now));
      }
    }

    /** `change_status`: set the status of the first task with the id. */
    method ChangeStatus(id: int, status: Status, now: Timestamp) returns (report: Report)
      modifies this
      ensures Doc() == Apply(old(Doc()), Revise(id, SetStatus(status), now))
      ensures report == Reply(old(Doc()), Revise(id, SetStatus(status), now))
      ensures saves == old(saves) + (if report == TaskNotFound then 0 else 1)
      ensures old(Valid()) ==> Valid()
    {
      ghost var before := Doc();
      var found := ReviseFirst(id, SetStatus(status), now);
      report := if found then TaskMarked(id, status) else TaskNotFound;
      if WellFormed(before) {
        ApplyPreservesWellFormed(before, Revise(id, SetStatus(status), now));
      }
    }

    /**
     * `delete_task`: keep the tasks with other ids; if that removed nothing,
     * report not found and leave the store as it is, else replace the list
     * and save. The counter is never touched.
     */
    method DeleteTask(id: int) returns (report: Report)
      modifies this
      ensures Doc() == Apply(old(Doc()), Remove(id))
      ensures report == Reply(old(Doc()), Remove(id))
      ensures lastId == old(lastId)
      ensures saves == old(saves) + (if report == TaskNotFound then 0 else 1)
      ensures old(Valid()) ==> Valid()
    {
      ghost var before := Doc();
      WithoutRemovesExactly(tasks, id);
      var kept := Without(tasks, id);
      if |kept| == |tasks| {
        report := TaskNotFound;
      } else {
        tasks := kept;
        saves := saves + 1;
        report := TaskDeleted(id);
      }
      if WellFormed(before) {
        ApplyPreservesWellFormed(before, Remove(id));
      }
    }

    /** `list_tasks`: the tasks with the status (all of them without a filter), in store order. */
    method ListTasks(filter: Option<Status>) returns (report: Report)
      ensures report == ListReport(tasks, filter)
      ensures report == NoTasksFound || report == Listing(Selected(tasks, filter))
      ensures filter.None? && tasks != [] ==> report == Listing(tasks)
    {
      var selected := Selected(tasks, filter);
      if selected == [] {
        report := NoTasksFound;
      } else {
        report := Listing(selected);
      }
    }
  }
}
