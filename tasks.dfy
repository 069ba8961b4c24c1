/**
 * The task record shared by the store, the table and the form. Every field is
 * the JavaScript value the components exchange; the status is kept as the
 * string they compare, so a status other than the three below (one read back
 * from storage, say) flows through unchanged.
 */
module Tasks {

  datatype Task = Task(id: int, title: string, description: string, dueDate: string, status: string)

  /** What the form hands to "add": the four editable fields, no id yet. */
  datatype Draft = Draft(title: string, description: string, dueDate: string, status: string)

  const StatusTodo: string := "Todo"
  const StatusInProgress: string := "In Progress"
  const StatusDone: string := "Done"

  /** `{ ...draft, id }`: the draft's fields with an id added. */
  function WithId(d: Draft, id: int): Task {
    Task(id, d.title, d.description, d.dueDate, d.status)
  }
}
