/**
 * The application state: the ordered task list with its add, update, delete
 * and toggle operations, which task is being edited and whether the form is
 * open, the theme, and the startup choice between stored and initial data.
 */
module App {
  import opened Wrappers
  import opened Seqs
  import opened Text
  import opened Tasks
  import opened TaskForm

  /** The tasks the app shows when storage holds none. */
  const InitialTasks: seq<Task> := [
    Task(1, "Design System Implementation",
      "Create a comprehensive design system with reusable components and tokens", "2026-02-10", StatusInProgress),
    Task(2, "API Integration",
      "Integrate third-party REST APIs for payment processing and notifications", "2026-02-15", StatusTodo),
    Task(3, "User Authentication Module",
      "Implement secure login, registration, and password recovery flows", "2026-02-08", StatusDone),
    Task(4, "Performance Optimization",
      "Optimize bundle size and implement lazy loading for better performance", "2026-02-20", StatusTodo),
    Task(5, "Documentation Update",
      "Update technical documentation and API reference guides", "2026-02-12", StatusInProgress)
  ]

  /** No task in the list carries `id`. */
  predicate IdFree(tasks: seq<Task>, id: int) {
    forall t :: t in tasks ==> t.id != id
  }

  /** No two tasks in the list share an id. */
  predicate UniqueIds(tasks: seq<Task>) {
    forall i, j :: 0 <= i < j < |tasks| ==> tasks[i].id != tasks[j].id
  }

  // ---------------------------------------------------------------------------
  // The list operations

  /** "handleAddTask": the draft, with the given id, appended at the end. */
  function Added(tasks: seq<Task>, draft: Draft, id: int): seq<Task> {
    tasks + [WithId(draft, id)]
  }

  /** "handleUpdateTask": every task with the updated task's id is replaced by it. */
  function Updated(tasks: seq<Task>, updated: Task): seq<Task> {
    seq(|tasks|, i requires 0 <= i < |tasks| => if tasks[i].id == updated.id then updated else tasks[i])
  }

  function IdIsNot(id: int): Task -> bool {
    (t: Task) => t.id != id
  }

  /** "handleDeleteTask": the tasks whose id is not `id`, in order. */
  function Deleted(tasks: seq<Task>, id: int): seq<Task> {
    Filter(IdIsNot(id), tasks)
  }

  /** The status a toggle gives: Done becomes Todo, anything else becomes Done. */
  function NextStatus(status: string): string {
    if status == StatusDone then StatusTodo else StatusDone
  }

  /** Every task with id `id` gets status `status`; nothing else changes. */
  function WithStatus(tasks: seq<Task>, id: int, status: string): seq<Task> {
    seq(|tasks|, i requires 0 <= i < |tasks| => if tasks[i].id == id then tasks[i].(status := status) else tasks[i])
  }

  /** "handleToggleComplete": the new status is computed from the task passed in, then set on every task with its id. */
  function Toggled(tasks: seq<Task>, task: Task): seq<Task> {
    WithStatus(tasks, task.id, NextStatus(task.status))
  }

  /** Startup: stored tasks replace the current ones only when they were read and are non-empty. */
  function StartupTasks(current: seq<Task>, stored: Option<seq<Task>>): seq<Task> {
    if stored.Some? && |stored.value| > 0 then stored.value else current
  }

  /** "getStoredTheme": dark when nothing is stored, otherwise dark exactly for the string "dark". */
  predicate ReadTheme(stored: Option<string>) {
    stored.None? || stored.value == "dark"
  }

  /** The string the theme is saved as. */
  function ThemeString(dark: bool): string {
    if dark then "dark" else "light"
  }

  // ---------------------------------------------------------------------------
  // Properties of the list operations

  /** Adding appends exactly one task, carrying the draft's fields and the id, after the untouched old list. */
  lemma AddAppendsOne(tasks: seq<Task>, draft: Draft, id: int)
    ensures |Added(tasks, draft, id)| == |tasks| + 1
    ensures Added(tasks, draft, id)[..|tasks|] == tasks
    ensures var t := Added(tasks, draft, id)[|tasks|];
      t.id == id && t.title == draft.title && t.description == draft.description &&
      t.dueDate == draft.dueDate && t.status == draft.status
  {
    assert Added(tasks, draft, id)[..|tasks|] == tasks;
  }

  /** Adding with an id the list does not use keeps the ids unique. */
  lemma AddKeepsIdsUnique(tasks: seq<Task>, draft: Draft, id: int)
    requires UniqueIds(tasks) && IdFree(tasks, id)
    ensures UniqueIds(Added(tasks, draft, id))
  {
    var r := Added(tasks, draft, id);
    forall i, j | 0 <= i < j < |r| ensures r[i].id != r[j].id {
      if j == |tasks| {
        assert r[i] == tasks[i];
      }
    }
  }

  /** Update keeps the length and every id, leaves tasks with other ids in place, and leaves the list as it was when no task has the id. */
  lemma UpdateKeepsShape(tasks: seq<Task>, updated: Task)
    ensures |Updated(tasks, updated)| == |tasks|
    ensures forall i :: 0 <= i < |tasks| ==> Updated(tasks, updated)[i].id == tasks[i].id
    ensures forall i :: 0 <= i < |tasks| && tasks[i].id != updated.id ==> Updated(tasks, updated)[i] == tasks[i]
    ensures IdFree(tasks, updated.id) ==> Updated(tasks, updated) == tasks
    ensures UniqueIds(tasks) ==> UniqueIds(Updated(tasks, updated))
  {
  }

  /** After an update of a present id, the updated task is in the list and is the only version with that id. */
  lemma UpdateInstallsTask(tasks: seq<Task>, updated: Task)
    requires !IdFree(tasks, updated.id)
    ensures updated in Updated(tasks, updated)
    ensures forall t :: t in Updated(tasks, updated) && t.id == updated.id ==> t == updated
  {
    var t :| t in tasks && t.id == updated.id;
    var i :| 0 <= i < |tasks| && tasks[i] == t;
    assert Updated(tasks, updated)[i] == updated;
  }

  /** Updating with the very task the list holds (ids unique) changes nothing. */
  lemma UpdateWithStoredTaskIsIdentity(tasks: seq<Task>, updated: Task)
    requires UniqueIds(tasks) && updated in tasks
    ensures Updated(tasks, updated) == tasks
  {
    var k :| 0 <= k < |tasks| && tasks[k] == updated;
    forall i | 0 <= i < |tasks| ensures Updated(tasks, updated)[i] == tasks[i] {
      if tasks[i].id == updated.id && i != k {
        assert false;
      }
    }
  }

  /** Delete removes exactly the tasks with the id and keeps the others in order. */
  lemma DeleteRemovesExactly(tasks: seq<Task>, id: int)
    ensures IsSubsequence(Deleted(tasks, id), tasks)
    ensures forall t :: t in Deleted(tasks, id) <==> t in tasks && t.id != id
    ensures forall t :: multiset(Deleted(tasks, id))[t] == if t.id != id then multiset(tasks)[t] else 0
    ensures IdFree(Deleted(tasks, id), id)
    ensures IdFree(tasks, id) ==> Deleted(tasks, id) == tasks
  {
    FilterIsSubsequence(IdIsNot(id), tasks);
    forall t ensures t in Deleted(tasks, id) <==> t in tasks && t.id != id {
      FilterMembership(IdIsNot(id), tasks, t);
    }
    forall t ensures multiset(Deleted(tasks, id))[t] == if t.id != id then multiset(tasks)[t] else 0 {
      FilterCount(IdIsNot(id), tasks, t);
    }
    if IdFree(tasks, id) {
      FilterKeepsAll(IdIsNot(id), tasks);
    }
  }

  /** Filtering keeps ids unique. */
  lemma {:induction false} FilterKeepsIdsUnique(p: Task -> bool, tasks: seq<Task>)
    requires UniqueIds(tasks)
    ensures UniqueIds(Filter(p, tasks))
  {
    if tasks != [] {
      var rest := Filter(p, tasks[1..]);
      FilterKeepsIdsUnique(p, tasks[1..]);
      if p(tasks[0]) {
        var r := Filter(p, tasks);
        assert r == [tasks[0]] + rest;
        forall i, j | 0 <= i < j < |r| ensures r[i].id != r[j].id {
          if i == 0 {
            assert r[j] == rest[j - 1] && r[j] in tasks[1..];
            var k :| 0 <= k < |tasks[1..]| && tasks[1..][k] == r[j];
            assert tasks[k + 1] == r[j];
          } else {
            assert r[i] == rest[i - 1] && r[j] == rest[j - 1];
          }
        }
      }
    }
  }

  lemma DeleteKeepsIdsUnique(tasks: seq<Task>, id: int)
    requires UniqueIds(tasks)
    ensures UniqueIds(Deleted(tasks, id))
  {
    FilterKeepsIdsUnique(IdIsNot(id), tasks);
  }

  /** Adding a task under an unused id and then deleting that id gives back the original list. */
  lemma DeleteUndoesAdd(tasks: seq<Task>, draft: Draft, id: int)
    requires IdFree(tasks, id)
    ensures Deleted(Added(tasks, draft, id), id) == tasks
  {
    FilterAppend(IdIsNot(id), tasks, [WithId(draft, id)]);
    FilterKeepsAll(IdIsNot(id), tasks);
    assert Filter(IdIsNot(id), [WithId(draft, id)]) == [];
  }

  /** Toggling twice restores Todo and Done, and turns In Progress into Todo. */
  lemma NextStatusTwice(status: string)
    ensures NextStatus(status) == StatusTodo || NextStatus(status) == StatusDone
    ensures status == StatusTodo || status == StatusDone ==> NextStatus(NextStatus(status)) == status
    ensures status == StatusInProgress ==> NextStatus(NextStatus(status)) == StatusTodo
  {
  }

  /** Toggle gives the tasks with the toggled id the passed task's next status, and changes nothing else. */
  lemma ToggleChangesOnlyStatus(tasks: seq<Task>, task: Task)
    ensures |Toggled(tasks, task)| == |tasks|
    ensures forall i :: 0 <= i < |tasks| ==>
      Toggled(tasks, task)[i] == tasks[i].(status := Toggled(tasks, task)[i].status)
    ensures forall i :: 0 <= i < |tasks| && tasks[i].id == task.id ==>
      Toggled(tasks, task)[i].status == NextStatus(task.status)
    ensures forall i :: 0 <= i < |tasks| && tasks[i].id != task.id ==> Toggled(tasks, task)[i] == tasks[i]
    ensures IdFree(tasks, task.id) ==> Toggled(tasks, task) == tasks
    ensures UniqueIds(tasks) ==> UniqueIds(Toggled(tasks, task))
  {
  }

  /**
   * Toggling a task and then toggling it again as it now appears restores the
   * list when its status was Todo or Done, and leaves it Todo when it was In
   * Progress (the tasks sharing its id having had its status).
   */
  lemma ToggleTwice(tasks: seq<Task>, task: Task)
    requires forall t :: t in tasks && t.id == task.id ==> t.status == task.status
    ensures var again := Toggled(Toggled(tasks, task), task.(status := NextStatus(task.status)));
      (task.status == StatusTodo || task.status == StatusDone ==> again == tasks) &&
      (task.status == StatusInProgress ==> again == WithStatus(tasks, task.id, StatusTodo))
  {
    var once := Toggled(tasks, task);
    var again := Toggled(once, task.(status := NextStatus(task.status)));
    forall i | 0 <= i < |tasks| && tasks[i].id == task.id ensures tasks[i].status == task.status {
      assert tasks[i] in tasks;
    }
    if task.status == StatusTodo || task.status == StatusDone {
      assert forall i :: 0 <= i < |tasks| ==> again[i] == tasks[i];
    }
  }

  /** The app never starts empty unless both the stored list and the current one are empty. */
  lemma StartupChoice(current: seq<Task>, stored: Option<seq<Task>>)
    ensures stored.Some? && stored.value != [] ==> StartupTasks(current, stored) == stored.value
    ensures stored.None? || stored.value == [] ==> StartupTasks(current, stored) == current
    ensures StartupTasks(current, stored) == [] <==> current == [] && (stored.None? || stored.value == [])
  {
  }

  /** The initial list is non-empty with unique ids, so a failed or empty load still shows five tasks. */
  lemma InitialTasksWellFormed()
    ensures |InitialTasks| == 5 && UniqueIds(InitialTasks)
  {
  }

  /** Nothing saved reads as dark, a saved string reads as dark only if it is "dark", and a saved theme reads back as itself. */
  lemma ThemeRoundTrip(dark: bool, stored: string)
    ensures ReadTheme(None)
    ensures ReadTheme(Some(stored)) <==> stored == "dark"
    ensures ReadTheme(Some(ThemeString(dark))) == dark
  {
  }

  // ---------------------------------------------------------------------------
  // The app's state

  class AppState {
    var tasks: seq<Task>
    var editingTask: Option<Task>
    var isFormOpen: bool
    var isDarkTheme: bool
    var isLoaded: bool

    constructor ()
      ensures tasks == InitialTasks && editingTask == None && !isFormOpen
      ensures isDarkTheme && !isLoaded
    {
      tasks := InitialTasks;
      editingTask := None;
      isFormOpen := false;
      isDarkTheme := true;
      isLoaded := false;
    }

    /**
     * The mount effect. `stored` is the parsed task list (None when the key is
     * absent or the text does not parse) and `storedTheme` the theme string
     * (None when the key is absent).
     */
    method Load(stored: Option<seq<Task>>, storedTheme: Option<string>)
      modifies this
      ensures tasks == StartupTasks(old(tasks), stored)
      ensures isDarkTheme == ReadTheme(storedTheme) && isLoaded
      ensures editingTask == old(editingTask) && isFormOpen == old(isFormOpen)
    {
      if stored.Some? && |stored.value| > 0 {
        tasks := stored.value;
      }
      isDarkTheme := storedTheme.None? || storedTheme.value == "dark";
      isLoaded := true;
    }

    method ToggleTheme()
      modifies this
      ensures isDarkTheme == !old(isDarkTheme)
      ensures tasks == old(tasks) && editingTask == old(editingTask)
      ensures isFormOpen == old(isFormOpen) && isLoaded == old(isLoaded)
    {
      isDarkTheme := !isDarkTheme;
    }

    /** "handleAddTask" with `id` standing for the clock reading. */
    method AddTask(draft: Draft, id: int)
      modifies this
      ensures tasks == Added(old(tasks), draft, id) && !isFormOpen
      ensures UniqueIds(old(tasks)) && IdFree(old(tasks), id) ==> UniqueIds(tasks)
      ensures editingTask == old(editingTask)
      ensures isDarkTheme == old(isDarkTheme) && isLoaded == old(isLoaded)
    {
      tasks := tasks + [WithId(draft, id)];
      isFormOpen := false;
      if UniqueIds(old(tasks)) && IdFree(old(tasks), id) {
        AddKeepsIdsUnique(old(tasks), draft, id);
      }
    }

    method UpdateTask(updated: Task)
      modifies this
      ensures tasks == Updated(old(tasks), updated) && |tasks| == |old(tasks)|
      ensures UniqueIds(old(tasks)) ==> UniqueIds(tasks)
      ensures editingTask == None && !isFormOpen
      ensures isDarkTheme == old(isDarkTheme) && isLoaded == old(isLoaded)
    {
      tasks := Updated(tasks, updated);
      editingTask := None;
      isFormOpen := false;
    }

    /** "handleDeleteTask": deleting the task being edited also clears the edit and closes the form. */
    method DeleteTask(id: int)
      modifies this
      ensures tasks == Deleted(old(tasks), id)
      ensures UniqueIds(old(tasks)) ==> UniqueIds(tasks)
      ensures old(editingTask).Some? && old(editingTask).value.id == id ==> editingTask == None && !isFormOpen
      ensures !(old(editingTask).Some? && old(editingTask).value.id == id) ==>
        editingTask == old(editingTask) && isFormOpen == old(isFormOpen)
      ensures isDarkTheme == old(isDarkTheme) && isLoaded == old(isLoaded)
    {
      tasks := Deleted(tasks, id);
      if UniqueIds(old(tasks)) {
        DeleteKeepsIdsUnique(old(tasks), id);
      }
      if editingTask.Some? && editingTask.value.id == id {
        editingTask := None;
        isFormOpen := false;
      }
    }

    method EditTask(task: Task)
      modifies this
      ensures editingTask == Some(task) && isFormOpen
      ensures tasks == old(tasks) && isDarkTheme == old(isDarkTheme) && isLoaded == old(isLoaded)
    {
      editingTask := Some(task);
      isFormOpen := true;
    }

    method CancelEdit()
      modifies this
      ensures editingTask == None && !isFormOpen
      ensures tasks == old(tasks) && isDarkTheme == old(isDarkTheme) && isLoaded == old(isLoaded)
    {
      editingTask := None;
      isFormOpen := false;
    }

    method OpenForm()
      modifies this
      ensures editingTask == None && isFormOpen
      ensures tasks == old(tasks) && isDarkTheme == old(isDarkTheme) && isLoaded == old(isLoaded)
    {
      editingTask := None;
      isFormOpen := true;
    }

    method ToggleComplete(task: Task)
      modifies this
      ensures tasks == Toggled(old(tasks), task)
      ensures UniqueIds(old(tasks)) ==> UniqueIds(tasks)
      ensures editingTask == old(editingTask) && isFormOpen == old(isFormOpen)
      ensures isDarkTheme == old(isDarkTheme) && isLoaded == old(isLoaded)
    {
      tasks := Toggled(tasks, task);
    }

    /**
     * A submit of the open form, wired to this app's handlers: the form decides,
     * then the app adds (with `id` standing for the clock reading) or updates.
     */
    method SubmitForm(form: TaskFormState, id: int)
      modifies this, form
      ensures var fields := old(form.Fields());
        if AllWhitespace(fields.title) then
          tasks == old(tasks) && editingTask == old(editingTask) &&
          isFormOpen == old(isFormOpen) && form.Fields() == fields
        else
          form.Fields() == EmptyDraft && !isFormOpen &&
          (old(editingTask).None? ==> tasks == Added(old(tasks), fields, id) && editingTask == None) &&
          (old(editingTask).Some? ==>
            tasks == Updated(old(tasks), WithId(fields, old(editingTask).value.id)) && editingTask == None)
      ensures isDarkTheme == old(isDarkTheme) && isLoaded == old(isLoaded)
    {
      var s := form.Submit(editingTask);
      match s
      case Rejected =>
      case Update(t) => UpdateTask(t);
      case Add(d) => AddTask(d, id);
    }
  }

  /** Editing a stored task and submitting the form unchanged leaves the list as it was (ids unique). */
  lemma EditAndResubmitIsIdentity(tasks: seq<Task>, t: Task)
    requires UniqueIds(tasks) && t in tasks && !AllWhitespace(t.title)
    ensures SubmitOutcome(FormOf(t), Some(t)) == Update(t)
    ensures Updated(tasks, t) == tasks
  {
    LoadThenSubmitReproducesTask(t);
    UpdateWithStoredTaskIsIdentity(tasks, t);
  }
}
