/**
 * The task list: tasks appended with a fresh id, deleted by id, and their
 * done flag toggled by id. The list operations are pure sequence functions;
 * `TaskList` is the component state (`tasks`, `title`, the selected category)
 * that the handlers replace.
 */
module Tasks {

  /** The category buttons offered when adding a task. */
  datatype Kind = Work | Study | Exercise | Cook | Firm

  datatype Task = Task(id: string, title: string, icon: Kind, status: bool)

  predicate HasId(ts: seq<Task>, id: string) {
    exists i :: 0 <= i < |ts| && ts[i].id == id
  }

  /** A task as it is created: not done. */
  function NewTask(id: string, title: string, icon: Kind): Task {
    Task(id, title, icon, false)
  }

  /** The list without the tasks carrying `id` (the `filter` of the delete handler). */
  function Removed(ts: seq<Task>, id: string): (r: seq<Task>)
    ensures forall t :: t in r <==> t in ts && t.id != id
    ensures !HasId(r, id)
    ensures |r| <= |ts|
  {
    if ts == [] then []
    else (if ts[0].id != id then [ts[0]] else []) + Removed(ts[1..], id)
  }

  /** `task` with its status flipped when its id is `id`. */
  function ToggledTask(task: Task, id: string): Task {
    if task.id == id then task.(status := !task.status) else task
  }

  /** The list with every task carrying `id` flipped (the `map` of the status handler). */
  function Toggled(ts: seq<Task>, id: string): (r: seq<Task>)
    ensures |r| == |ts|
    ensures forall i :: 0 <= i < |ts| ==>
      && r[i].id == ts[i].id && r[i].title == ts[i].title && r[i].icon == ts[i].icon
      && r[i].status == (if ts[i].id == id then !ts[i].status else ts[i].status)
  {
    if ts == [] then [] else [ToggledTask(ts[0], id)] + Toggled(ts[1..], id)
  }

  /** Deleting keeps the relative order: it distributes over concatenation. */
  lemma {:induction false} RemovedConcat(a: seq<Task>, b: seq<Task>, id: string)
    ensures Removed(a + b, id) == Removed(a, id) + Removed(b, id)
  {
    if a == [] {
      assert a + b == b;
    } else {
      assert (a + b)[0] == a[0];
      assert (a + b)[1..] == a[1..] + b;
      RemovedConcat(a[1..], b, id);
    }
  }

  /** Deleting an id that is not in the list leaves the list unchanged. */
  lemma {:induction false} RemovedAbsent(ts: seq<Task>, id: string)
    requires !HasId(ts, id)
    ensures Removed(ts, id) == ts
  {
    if ts != [] {
      assert !HasId(ts[1..], id) by {
        forall i | 0 <= i < |ts[1..]| ensures ts[1..][i].id != id {
          assert ts[1..][i] == ts[i + 1];
        }
      }
      RemovedAbsent(ts[1..], id);
      assert ts == [ts[0]] + ts[1..];
    }
  }

  /** Deleting removes exactly the tasks carrying the id: the length drops by their number. */
  lemma {:induction false} RemovedCount(ts: seq<Task>, id: string)
    ensures |Removed(ts, id)| == |ts| - CountId(ts, id)
  {
    if ts != [] {
      RemovedCount(ts[1..], id);
    }
  }

  function CountId(ts: seq<Task>, id: string): nat {
    if ts == [] then 0 else (if ts[0].id == id then 1 else 0) + CountId(ts[1..], id)
  }

  /** Toggling the same id twice restores the list. */
  lemma ToggledTwice(ts: seq<Task>, id: string)
    ensures Toggled(Toggled(ts, id), id) == ts
  {
    var r := Toggled(Toggled(ts, id), id);
    assert forall i :: 0 <= i < |ts| ==> r[i] == ts[i];
  }

  /** Toggling an id that is not in the list leaves the list unchanged. */
  lemma ToggledAbsent(ts: seq<Task>, id: string)
    requires !HasId(ts, id)
    ensures Toggled(ts, id) == ts
  {
    var r := Toggled(ts, id);
    assert forall i :: 0 <= i < |ts| ==> r[i] == ts[i];
  }

  /**
   * The delete button sits inside the clickable row, so its click also reaches
   * the row's status toggle; after the removal that toggle finds no task with
   * the id and changes nothing.
   */
  lemma DeleteAlsoToggles(ts: seq<Task>, id: string)
    ensures Toggled(Removed(ts, id), id) == Removed(ts, id)
  {
    ToggledAbsent(Removed(ts, id), id);
  }

  /** The state of the task tab. */
  class TaskList {
    var tasks: seq<Task>
    var title: string
    var selectedType: Kind

    /** The tab starts with its own empty list, an empty title and the first category. */
    constructor ()
      ensures tasks == [] && title == "" && selectedType == Work
    {
      tasks := [];
      title := "";
      selectedType := Work;
    }

    /** The text input. */
    method SetTitle(text: string)
      modifies this`title
      ensures title == text
    {
      title := text;
    }

    /** A category button. */
    method SelectType(kind: Kind)
      modifies this`selectedType
      ensures selectedType == kind
    {
      selectedType := kind;
    }

    /**
     * `handleAddTask`: with an empty title nothing happens; otherwise one
     * not-done task with this title and category is appended and the title is
     * cleared. The clock-derived id is a parameter.
     */
    method AddTask(id: string)
      modifies this`tasks, this`title
      ensures old(title) == "" ==> tasks == old(tasks) && title == old(title)
      ensures old(title) != "" ==>
        tasks == old(tasks) + [NewTask(id, old(title), selectedType)] && title == ""
    {
      if title == "" {
        return;
      }
      tasks := tasks + [NewTask(id, title, selectedType)];
      title := "";
    }

    /** `handleDeleteTask`. */
    method DeleteTask(id: string)
      modifies this`tasks
      ensures tasks == Removed(old(tasks), id)
    {
      tasks := Removed(tasks, id);
    }

    /** `changeTaskStatus`. */
    method ChangeTaskStatus(id: string)
      modifies this`tasks
      ensures tasks == Toggled(old(tasks), id)
    {
      tasks := Toggled(tasks, id);
    }
  }
}
