/**
 * The task form: four fields that are filled from the task being edited (or
 * reset when there is none), and a submit that rejects a blank title and
 * otherwise hands either an update or a new draft to the store.
 */
module TaskForm {
  import opened Wrappers
  import opened Text
  import opened Tasks

  /** What one submit asks of the store: nothing, an update of an existing task, or an addition. */
  datatype Submission = Rejected | Update(task: Task) | Add(draft: Draft)

  /** The fields of an empty form. */
  const EmptyDraft: Draft := Draft("", "", "", StatusTodo)

  /** The four editable fields of a task, as the form shows them. */
  function FormOf(t: Task): Draft {
    Draft(t.title, t.description, t.dueDate, t.status)
  }

  /**
   * What "handleSubmit" decides for the current fields: a title that trims to
   * nothing is rejected; otherwise the untrimmed fields go to "update", with the
   * edited task's id, or to "add", without an id.
   */
  function SubmitOutcome(fields: Draft, editing: Option<Task>): (s: Submission)
    ensures s.Rejected? <==> AllWhitespace(fields.title)
    ensures s.Update? <==> !AllWhitespace(fields.title) && editing.Some?
    ensures s.Update? ==> s.task == WithId(fields, editing.value.id)
    ensures s.Add? ==> s.draft == fields
  {
    TrimEmptyIffBlank(fields.title);
    if Trim(fields.title) == "" then Rejected
    else if editing.Some? then Update(WithId(fields, editing.value.id))
    else Add(fields)
  }

  /** Loading a task into the form and submitting it unchanged asks to update it to itself. */
  lemma LoadThenSubmitReproducesTask(t: Task)
    requires !AllWhitespace(t.title)
    ensures SubmitOutcome(FormOf(t), Some(t)) == Update(t)
  {
  }

  class TaskFormState {
    var title: string
    var description: string
    var dueDate: string
    var status: string

    function Fields(): Draft
      reads this
    {
      Draft(title, description, dueDate, status)
    }

    constructor ()
      ensures Fields() == EmptyDraft
    {
      title, description, dueDate, status := "", "", "", StatusTodo;
    }

    /** The effect on "editingTask": copy the edited task's fields in, or reset the form. */
    method SyncWithEditingTask(editing: Option<Task>)
      modifies this
      ensures Fields() == if editing.Some? then FormOf(editing.value) else EmptyDraft
    {
      if editing.Some? {
        title := editing.value.title;
        description := editing.value.description;
        dueDate := editing.value.dueDate;
        status := editing.value.status;
      } else {
        title, description, dueDate, status := "", "", "", StatusTodo;
      }
    }

    /** "handleSubmit": a rejected submit changes nothing; any other resets the form. */
    method Submit(editing: Option<Task>) returns (s: Submission)
      modifies this
      ensures s == SubmitOutcome(old(Fields()), editing)
      ensures Fields() == if s.Rejected? then old(Fields()) else EmptyDraft
    {
      if Trim(title) == "" {
        return Rejected;
      }
      if editing.Some? {
        s := Update(Task(editing.value.id, title, description, dueDate, status));
      } else {
        s := Add(Draft(title, description, dueDate, status));
      }
      title, description, dueDate, status := "", "", "", StatusTodo;
    }
  }
}
