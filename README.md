# Task tracker model

A Dafny model of the logic of a single-page task tracker. The model covers
three parts:

- The task table decides which tasks are shown for a search text, a status
  filter and a due-date filter with three modes (exact, on or before, on or
  after). It also classifies each shown row as done, overdue or in progress.
- The app state holds the ordered task list with add, update, delete and
  toggle-complete. Around it sit the edit/open/cancel flags for the form, the
  theme flag and the startup choice between stored and built-in tasks.
- The task form holds four fields. They are filled from the task being edited
  or reset. A submit rejects a blank title and otherwise sends an update or a
  new draft to the store.

The modules follow the source files:

- `TaskTable` models `src/components/TaskTable.jsx`.
- `App` models `src/App.jsx`.
- `TaskForm` models `src/components/TaskForm.jsx`.
- `Tasks` holds the task record.
- `Seqs`, `Text`, `Dates` and `Wrappers` hold the shared helpers: the
  order-preserving filter, lower-casing, `includes`, `trim`, ISO date parsing
  and `Option`.

Pure code is written as functions. Component state becomes a class:
`TaskTableState` (the four filter settings), `AppState` (tasks, editing task,
form flag, theme, loaded flag) and `TaskFormState` (the four form fields).
Their methods call the pure functions.

Conventions:

- Dates are ISO `YYYY-MM-DD` strings, as an HTML date input produces them.
  They are compared as calendar days (`Dates.Date`). A string that is not of
  that shape reads as an invalid date, and every comparison with an invalid
  date is false, as with JavaScript's `NaN` time value.
- The clock is a parameter. `today` is the viewer's local calendar date, and
  the id of a new task is the caller's clock reading.
- Storage is a parameter. The parsed task list and the theme string arrive as
  `Option` values.

The model keeps these properties of the code:

- The status is a free string, not an enum. The status filter compares it
  exactly, and any status other than "Done" and "In Progress" gets the todo
  badge.
- Toggle computes the new status from the task object passed in. It then sets
  that status on every task with the same id.
- Update and delete act on every task with the given id. An unknown id is a
  silent no-op.
- Ids are not checked for uniqueness. Each operation is shown to preserve
  unique ids when it starts from unique ids and, for add, gets an unused id.

## Model

| member | source | states |
|---|---|---|
| Seqs.Filter | projecttaskmanager/src/components/TaskTable.jsx:51-80 | the filtered list is no longer than the input, and each element is an input element that passes the test |
| Seqs.FilterMembership | projecttaskmanager/src/components/TaskTable.jsx:51-80 | an element is in the filtered list iff it is in the input and passes the test |
| Seqs.FilterCount | projecttaskmanager/src/components/TaskTable.jsx:51-80 | the filtered list holds every copy of an element that passes the test and none of one that fails |
| Seqs.FilterIsSubsequence | projecttaskmanager/src/components/TaskTable.jsx:51-80 | filtering preserves order: the result is a sub-list of the input |
| Seqs.FilterMonotone | projecttaskmanager/src/components/TaskTable.jsx:79 | a stricter test keeps a sub-list of what a looser test keeps |
| Text.IncludesIff | projecttaskmanager/src/components/TaskTable.jsx:53-54 | the left-to-right `includes` scan succeeds iff the needle occurs at some position of the text |
| Text.IncludesTransitive | projecttaskmanager/src/components/TaskTable.jsx:53-54 | a substring of a substring is a substring, which is why a longer query matches fewer tasks |
| Text.TrimEmptyIffBlank | projecttaskmanager/src/components/TaskForm.jsx:28 | `trim` leaves the empty string iff every character is ECMAScript whitespace or a line terminator |
| Dates.ParseIsoDate | projecttaskmanager/src/components/TaskTable.jsx:60-61 | a string parses to a date only if it has the `DDDD-DD-DD` shape, and the date has a 4-digit year, a month in 1..12 and a day in 1..31 |
| Dates.IsoFields | projecttaskmanager/src/components/TaskTable.jsx:60-61 | the parsed year, month and day are the base-ten values of the digit fields |
| Dates.DigitsInjective | projecttaskmanager/src/components/TaskTable.jsx:60-61 | digit strings of equal length that denote the same number are equal |
| Dates.ParseInjective | projecttaskmanager/src/components/TaskTable.jsx:60-72 | two strings that parse to the same calendar day are the same string |
| Dates.PrecedesStrictTotal | projecttaskmanager/src/components/TaskTable.jsx:65-68 | the calendar order is irreflexive, transitive and total |
| TaskTable.MatchesSearch | projecttaskmanager/src/components/TaskTable.jsx:52-54 | a task matches iff the query is empty, or the lower-cased query occurs in the lower-cased title or the lower-cased description |
| TaskTable.EmptyQueryMatchesAll | projecttaskmanager/src/components/TaskTable.jsx:52 | the empty query matches every task |
| TaskTable.SearchIgnoresQueryCase | projecttaskmanager/src/components/TaskTable.jsx:53-54 | two queries that are equal up to letter case match the same tasks |
| TaskTable.VisibleIsMatchingSublist | projecttaskmanager/src/components/TaskTable.jsx:51-80 | the shown tasks keep the store's order, they are exactly the store's tasks that pass all three tests, and every copy of a passing task is shown |
| TaskTable.ShownTasksPassEveryTest | projecttaskmanager/src/components/TaskTable.jsx:52-79 | each shown task contains the query, has the exact filtered status and has a due date when a date filter is set; its date meets the mode (before, after, or exact string equality for any other mode) |
| TaskTable.InactiveFiltersShowAll | projecttaskmanager/src/components/TaskTable.jsx:88-96 | with no search, status "all" and no date, the table shows the whole list unchanged, in any date mode; this is why `hasActiveFilters` may ignore the mode |
| TaskTable.NarrowingNeverAddsTasks | projecttaskmanager/src/components/TaskTable.jsx:79 | tighter settings show a sub-list of what looser settings show, and never more tasks |
| TaskTable.SingleTighteningsNarrow | projecttaskmanager/src/components/TaskTable.jsx:52-77 | extending the query tightens any settings; choosing a status tightens settings whose status is "all"; choosing a date tightens settings with no date |
| TaskTable.UnknownModeIsExact | projecttaskmanager/src/components/TaskTable.jsx:63-74 | any mode other than "before" and "after" behaves as "exact": string equality with the filter date |
| TaskTable.DateFilterExcludesUndated | projecttaskmanager/src/components/TaskTable.jsx:75-77 | with a date filter set, a task without a due date is excluded in every mode |
| TaskTable.DateModesAgree | projecttaskmanager/src/components/TaskTable.jsx:58-77 | for well-formed dates, "exact" keeps a task iff both "before" and "after" keep it, and every dated task passes "before" or "after" |
| TaskTable.ScenarioStatusFilter | projecttaskmanager/src/components/TaskTable.jsx:56 | with tasks due 2026-01-01 (Todo) and 2026-03-01 (Done), the status filter Todo shows only the first |
| TaskTable.ScenarioOnOrAfterFilter | projecttaskmanager/src/components/TaskTable.jsx:67-68 | on the same list, on-or-after 2026-02-01 shows only the second |
| TaskTable.OverdueMeansPastDueDay | projecttaskmanager/src/components/TaskTable.jsx:5-11 | a task is overdue iff it is not done and its due date is a calendar day strictly before today; a task due today is not overdue |
| TaskTable.NeverOverdue | projecttaskmanager/src/components/TaskTable.jsx:6 | done tasks and tasks without a due date are never overdue |
| TaskTable.OverdueOnlyGrows | projecttaskmanager/src/components/TaskTable.jsx:5-11 | a task that is overdue today is still overdue on any later day |
| TaskTable.OverdueAsWrittenVersusCalendar | projecttaskmanager/src/components/TaskTable.jsx:7-10 | the written comparison (due date at midnight UTC against local midnight) agrees with the calendar at or east of UTC; west of UTC it also flags tasks due today |
| TaskTable.DueTodayOverdueWestOfUtc | projecttaskmanager/src/components/TaskTable.jsx:7-10 | a Todo task due 2026-02-10, seen on 2026-02-10 at UTC-5, is flagged overdue by the written code but not by the calendar rule |
| TaskTable.RowClassMeaning | projecttaskmanager/src/components/TaskTable.jsx:14-25 | "row-done" iff done; "row-overdue" iff overdue, even when in progress; "row-in-progress" iff in progress and not overdue; "" otherwise |
| TaskTable.ClassesAgree | projecttaskmanager/src/components/TaskTable.jsx:14-42 | the row, text and badge classes agree on which tasks are done; an in-progress row has the in-progress badge; the todo badge goes to every other status |
| TaskTable.TaskTableState.constructor | projecttaskmanager/src/components/TaskTable.jsx:45-48 | the settings start as no search, status "all", no date and mode "exact" |
| TaskTable.TaskTableState.SetSearchQuery | projecttaskmanager/src/components/TaskTable.jsx:153 | only the search setting changes |
| TaskTable.TaskTableState.SetFilterStatus | projecttaskmanager/src/components/TaskTable.jsx:180 | only the status setting changes |
| TaskTable.TaskTableState.SetFilterDateType | projecttaskmanager/src/components/TaskTable.jsx:199 | only the date mode changes |
| TaskTable.TaskTableState.SetFilterDate | projecttaskmanager/src/components/TaskTable.jsx:218 | only the date setting changes |
| TaskTable.TaskTableState.ClearFilters | projecttaskmanager/src/components/TaskTable.jsx:88-93 | the settings return to their initial values, no filter is active, and every task list is shown unchanged |
| TaskForm.SubmitOutcome | projecttaskmanager/src/components/TaskForm.jsx:25-49 | rejected iff the title is all whitespace; otherwise an update carrying the edited task's id when a task is being edited, else an add without an id; the title is sent untrimmed |
| TaskForm.LoadThenSubmitReproducesTask | projecttaskmanager/src/components/TaskForm.jsx:11-40 | loading a task with a non-blank title and submitting unchanged asks to update it to itself |
| TaskForm.TaskFormState.constructor | projecttaskmanager/src/components/TaskForm.jsx:5-8 | the fields start empty, with status Todo |
| TaskForm.TaskFormState.SyncWithEditingTask | projecttaskmanager/src/components/TaskForm.jsx:11-23 | a task being edited copies its four fields in; no task resets the form to its defaults |
| TaskForm.TaskFormState.Submit | projecttaskmanager/src/components/TaskForm.jsx:25-55 | returns the submit decision for the fields as they were; a rejected submit changes no field, and any other resets the form |
| App.AddAppendsOne | projecttaskmanager/src/App.jsx:126-131 | adding grows the list by one, keeps the old list as the prefix, and appends the draft's fields with the given id |
| App.AddKeepsIdsUnique | projecttaskmanager/src/App.jsx:126-131 | adding under an unused id keeps ids unique |
| App.UpdateKeepsShape | projecttaskmanager/src/App.jsx:136-137 | update keeps the length and every position's id, leaves every task with another id in place, keeps ids unique, and changes nothing when no task has the id |
| App.UpdateInstallsTask | projecttaskmanager/src/App.jsx:136-137 | after updating a present id, the updated task is in the list and is the only task with that id |
| App.UpdateWithStoredTaskIsIdentity | projecttaskmanager/src/App.jsx:136-137 | with unique ids, updating with a task already in the list changes nothing |
| App.DeleteRemovesExactly | projecttaskmanager/src/App.jsx:143-144 | delete keeps every copy of the other tasks in order and removes every task with the id; an unknown id changes nothing |
| App.DeleteKeepsIdsUnique | projecttaskmanager/src/App.jsx:144 | delete keeps ids unique |
| App.DeleteUndoesAdd | projecttaskmanager/src/App.jsx:126-149 | adding under an unused id and then deleting that id restores the original list |
| App.NextStatusTwice | projecttaskmanager/src/App.jsx:171 | a toggle yields Todo or Done; toggling twice restores Todo and Done and turns In Progress into Todo |
| App.ToggleChangesOnlyStatus | projecttaskmanager/src/App.jsx:170-173 | toggle gives every task with the toggled id the status 'Todo' when the passed task is 'Done' and 'Done' otherwise, changes nothing else, leaves tasks with other ids alone; an unknown id changes nothing; ids stay unique |
| App.ToggleTwice | projecttaskmanager/src/App.jsx:170-173 | toggling a task twice restores the list when its status was Todo or Done, and sets Todo when it was In Progress |
| App.StartupChoice | projecttaskmanager/src/App.jsx:88-92 | stored tasks replace the current ones iff they were read and are non-empty; the start list is empty only if both are empty |
| App.InitialTasksWellFormed | projecttaskmanager/src/App.jsx:23-59 | the built-in list has five tasks with distinct ids |
| App.ThemeRoundTrip | projecttaskmanager/src/App.jsx:75-78 | a missing key reads as dark; a stored string reads as dark iff it is exactly "dark"; a saved theme reads back as itself |
| App.AppState.constructor | projecttaskmanager/src/App.jsx:81-85 | the app starts with the built-in tasks, no task being edited, the form closed, the dark theme and nothing loaded |
| App.AppState.Load | projecttaskmanager/src/App.jsx:88-98 | the tasks follow the startup choice, the theme follows the stored string, and the app is marked loaded |
| App.AppState.ToggleTheme | projecttaskmanager/src/App.jsx:121-123 | the theme flag is negated; nothing else changes |
| App.AppState.AddTask | projecttaskmanager/src/App.jsx:126-133 | the list becomes the add result and the form closes; unique ids are kept for an unused id |
| App.AppState.UpdateTask | projecttaskmanager/src/App.jsx:136-140 | the list becomes the update result with the same length, nothing is being edited, and the form closes |
| App.AppState.DeleteTask | projecttaskmanager/src/App.jsx:143-149 | the list becomes the delete result; if the deleted id is the edited task's, editing ends and the form closes, otherwise both stay |
| App.AppState.EditTask | projecttaskmanager/src/App.jsx:152-155 | the given task is being edited and the form is open |
| App.AppState.CancelEdit | projecttaskmanager/src/App.jsx:158-161 | nothing is being edited and the form is closed |
| App.AppState.OpenForm | projecttaskmanager/src/App.jsx:164-167 | nothing is being edited and the form is open |
| App.AppState.ToggleComplete | projecttaskmanager/src/App.jsx:170-173 | the list becomes the toggle result; the flags stay |
| App.AppState.SubmitForm | projecttaskmanager/src/components/TaskForm.jsx:28-54 | a blank title changes nothing; otherwise the form resets and closes, and the list gets either the draft appended with the new id or the edited id's tasks replaced |
| App.EditAndResubmitIsIdentity | projecttaskmanager/src/App.jsx:136-155 | with unique ids, editing a stored task and submitting it unchanged leaves the list as it was |

## Findings

| source | as written | input that shows it | evidently intended | confidence | as-written member | corrected member |
|---|---|---|---|---|---|---|
| projecttaskmanager/src/components/TaskTable.jsx:7-10 | the due date string is read as midnight UTC and compared with midnight of the viewer's local day | a Todo task due 2026-02-10, viewed on 2026-02-10 from a zone 5 hours west of UTC, is shown as overdue | overdue only from the day after the due date, in every time zone | high; not executed | TaskTable.DueTodayOverdueWestOfUtc | TaskTable.OverdueMeansPastDueDay |

Row classes (`TaskTable.RowClass`) use the corrected calendar comparison
(`TaskTable.IsOverdue`). The written comparison is kept as
`TaskTable.IsOverdueAsWritten`, with the time zone as a parameter in minutes
east of UTC.

## Left out

- TaskTable.MatchesSearch: lower-cases ASCII letters only. JavaScript's `toLowerCase` also folds other Unicode letters. Full case mapping needs Unicode tables this model does not carry.
- Dates.ParseIsoDate: takes only `YYYY-MM-DD` strings. JavaScript engines also accept other date formats, and some roll an impossible day such as February 30 into the next month. Date inputs produce only the ISO form.
- TaskTable.DateModesAgree: holds for every string the parser accepts, including impossible days such as 2026-02-30. An engine that rolls such a day into the next month, or rejects it, can make "exact" disagree with "before" and "after" together; the parser does not check month lengths (see Dates.ParseIsoDate).
- TaskTable.IsOverdue: compares calendar days. The written code's time-zone behaviour is modelled separately; see Findings.
- Reading and writing local storage, `JSON.parse` and `JSON.stringify` (`App.jsx:62-72`, `App.jsx:108-118`) are browser I/O and a foreign parser. The parsed list enters as an `Option`, so the save-and-reload round trip is not modelled.
- A stored JSON value that parses but is not an array of tasks (a number, a string) is not modelled. The parsed value is taken to be a task list or nothing.
- The `isLoaded` gating of the save effects and the `data-theme` attribute on the document (`App.jsx:100-118`) are framework plumbing.
- `window.confirm` before delete (`TaskTable.jsx:82-86`) is a UI primitive. `AppState.DeleteTask` models the handler that runs after the user confirms.
- `alert` on a blank title (`TaskForm.jsx:29`) is a UI primitive. The rejection itself is modelled.
- `Date.now()` for new ids and `new Date()` for today are clock reads. They are parameters.
- The form's `onChange` handlers assign one field each. The model's fields are public and can be assigned directly.
- JSX rendering, CSS, SVG markup, the "N shown" count and the Navbar component are presentation, not logic.
