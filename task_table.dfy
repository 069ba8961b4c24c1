/**
 * The task table: which tasks are shown for the current search, status and
 * due-date settings, and how each shown row is classified (overdue, row,
 * text and badge classes). The settings themselves are the table's state.
 */
module TaskTable {
  import opened Wrappers
  import opened Seqs
  import opened Text
  import opened Dates
  import opened Tasks

  /** The four filter settings: search text, status ("all" or a status), due date ("" for none) and date mode. */
  datatype Filters = Filters(search: string, status: string, date: string, dateMode: string)

  /** The settings the table starts with and returns to on "Clear All". */
  const NoFilters: Filters := Filters("", "all", "", "exact")

  // ---------------------------------------------------------------------------
  // The filter predicate

  /** The search test: an empty query, or the lower-cased query inside the lower-cased title or description. */
  predicate MatchesSearch(t: Task, query: string)
    ensures MatchesSearch(t, query) <==>
      query == "" ||
      (exists i :: OccursAt(Lower(t.title), Lower(query), i)) ||
      (exists i :: OccursAt(Lower(t.description), Lower(query), i))
  {
    IncludesIff(Lower(t.title), Lower(query));
    IncludesIff(Lower(t.description), Lower(query));
    query == "" ||
    Includes(Lower(t.title), Lower(query)) ||
    Includes(Lower(t.description), Lower(query))
  }

  /** The status test: "all", or exactly the task's status string. */
  predicate MatchesStatus(t: Task, status: string) {
    status == "all" || t.status == status
  }

  /** `new Date(due) <= new Date(bound)`: false when either string is not a date. */
  predicate DueOnOrBefore(due: string, bound: string) {
    match (ParseIsoDate(due), ParseIsoDate(bound))
    case (Some(d), Some(b)) => OnOrBefore(d, b)
    case _ => false
  }

  /** `new Date(due) >= new Date(bound)`: false when either string is not a date. */
  predicate DueOnOrAfter(due: string, bound: string) {
    match (ParseIsoDate(due), ParseIsoDate(bound))
    case (Some(d), Some(b)) => OnOrBefore(b, d)
    case _ => false
  }

  /** The due-date test; any mode other than "before" and "after" behaves as "exact". */
  predicate MatchesDate(due: string, date: string, mode: string) {
    if date != "" && due != "" then
      if mode == "before" then DueOnOrBefore(due, date)
      else if mode == "after" then DueOnOrAfter(due, date)
      else due == date
    else if date != "" && due == "" then false
    else true
  }

  predicate Matches(t: Task, f: Filters) {
    MatchesSearch(t, f.search) && MatchesStatus(t, f.status) && MatchesDate(t.dueDate, f.date, f.dateMode)
  }

  function Passes(f: Filters): Task -> bool {
    (t: Task) => Matches(t, f)
  }

  /** The tasks the table shows, in store order. */
  function Visible(tasks: seq<Task>, f: Filters): seq<Task> {
    Filter(Passes(f), tasks)
  }

  /** "hasActiveFilters": the date mode is not consulted. */
  predicate IsActive(f: Filters) {
    f.search != "" || f.status != "all" || f.date != ""
  }

  // ---------------------------------------------------------------------------
  // Properties of the filter

  /** The shown tasks are an order-preserving sub-list of the store holding exactly the matching tasks. */
  lemma VisibleIsMatchingSublist(tasks: seq<Task>, f: Filters)
    ensures IsSubsequence(Visible(tasks, f), tasks)
    ensures forall t :: t in Visible(tasks, f) <==> t in tasks && Matches(t, f)
    ensures forall t :: multiset(Visible(tasks, f))[t] == if Matches(t, f) then multiset(tasks)[t] else 0
  {
    FilterIsSubsequence(Passes(f), tasks);
    forall t ensures t in Visible(tasks, f) <==> t in tasks && Matches(t, f) {
      FilterMembership(Passes(f), tasks, t);
    }
    forall t ensures multiset(Visible(tasks, f))[t] == if Matches(t, f) then multiset(tasks)[t] else 0 {
      FilterCount(Passes(f), tasks, t);
    }
  }

  /** Every shown task passes each of the three tests. */
  lemma ShownTasksPassEveryTest(tasks: seq<Task>, f: Filters, t: Task)
    requires t in Visible(tasks, f)
    ensures f.search != "" ==>
      (exists i :: OccursAt(Lower(t.title), Lower(f.search), i)) ||
      (exists i :: OccursAt(Lower(t.description), Lower(f.search), i))
    ensures f.status != "all" ==> t.status == f.status
    ensures f.date != "" ==> t.dueDate != ""
    ensures f.date != "" && f.dateMode == "before" ==> DueOnOrBefore(t.dueDate, f.date)
    ensures f.date != "" && f.dateMode == "after" ==> DueOnOrAfter(t.dueDate, f.date)
    ensures f.date != "" && f.dateMode != "before" && f.dateMode != "after" ==> t.dueDate == f.date
  {
    FilterMembership(Passes(f), tasks, t);
  }

  /** With no search, status "all" and no date, every task is shown, in order, whatever the date mode. */
  lemma InactiveFiltersShowAll(tasks: seq<Task>, f: Filters)
    requires !IsActive(f)
    ensures Visible(tasks, f) == tasks
  {
    forall t | t in tasks ensures Passes(f)(t) {
    }
    FilterKeepsAll(Passes(f), tasks);
  }

  /** An empty query matches every task. */
  lemma EmptyQueryMatchesAll(t: Task)
    ensures MatchesSearch(t, "")
  {
  }

  /** The search ignores the case of the query: queries equal up to case give the same result. */
  lemma SearchIgnoresQueryCase(t: Task, q1: string, q2: string)
    requires Lower(q1) == Lower(q2)
    ensures MatchesSearch(t, q1) == MatchesSearch(t, q2)
  {
    assert |q1| == |Lower(q1)| && |q2| == |Lower(q2)|;
  }

  /** Settings `g` are at least as strict as `f` in each of the three tests. */
  ghost predicate Narrows(g: Filters, f: Filters) {
    Includes(Lower(g.search), Lower(f.search)) &&
    (f.status == "all" || g.status == f.status) &&
    (f.date == "" || (g.date == f.date && g.dateMode == f.dateMode))
  }

  lemma NarrowerSearchMatchesLess(t: Task, g: string, f: string)
    requires Includes(Lower(g), Lower(f)) && MatchesSearch(t, g)
    ensures MatchesSearch(t, f)
  {
    if f != "" && g != "" {
      if Includes(Lower(t.title), Lower(g)) {
        IncludesTransitive(Lower(t.title), Lower(g), Lower(f));
      } else {
        IncludesTransitive(Lower(t.description), Lower(g), Lower(f));
      }
    }
  }

  /** Tightening the settings never adds a task to the table and never reorders it. */
  lemma NarrowingNeverAddsTasks(tasks: seq<Task>, g: Filters, f: Filters)
    requires Narrows(g, f)
    ensures IsSubsequence(Visible(tasks, g), Visible(tasks, f))
    ensures |Visible(tasks, g)| <= |Visible(tasks, f)|
  {
    forall t | t in tasks && Passes(g)(t) ensures Passes(f)(t) {
      NarrowerSearchMatchesLess(t, g.search, f.search);
    }
    FilterMonotone(Passes(g), Passes(f), tasks);
  }

  /**
   * Adding a search term narrows any settings; choosing a status narrows settings
   * that show every status, and choosing a date narrows settings with no date.
   */
  lemma SingleTighteningsNarrow(f: Filters, extra: string, status: string, date: string)
    ensures Narrows(f.(search := f.search + extra), f)
    ensures f.status == "all" ==> Narrows(f.(status := status), f)
    ensures f.date == "" ==> Narrows(f.(date := date), f)
  {
    var s := Lower(f.search + extra);
    assert s[..|f.search|] == Lower(f.search);
    assert OccursAt(s, Lower(f.search), 0);
    IncludesIff(s, Lower(f.search));
    assert OccursAt(Lower(f.search), Lower(f.search), 0);
    IncludesIff(Lower(f.search), Lower(f.search));
  }

  /** Date modes other than "before" and "after" fall back to exact string equality. */
  lemma UnknownModeIsExact(due: string, date: string, mode: string)
    requires mode != "before" && mode != "after"
    ensures MatchesDate(due, date, mode) == MatchesDate(due, date, "exact")
    ensures date != "" ==> (MatchesDate(due, date, mode) <==> due == date)
  {
  }

  /** A date filter excludes every task without a due date, in every mode. */
  lemma DateFilterExcludesUndated(date: string, mode: string)
    requires date != ""
    ensures !MatchesDate("", date, mode)
  {
  }

  /**
   * On well-formed dates the three modes agree with the calendar: "exact" keeps
   * exactly the tasks that both "before" and "after" keep, and every dated task
   * is kept by "before" or by "after".
   */
  lemma DateModesAgree(due: string, date: string)
    requires ParseIsoDate(due).Some? && ParseIsoDate(date).Some?
    ensures MatchesDate(due, date, "exact") <==>
      MatchesDate(due, date, "before") && MatchesDate(due, date, "after")
    ensures MatchesDate(due, date, "before") || MatchesDate(due, date, "after")
  {
    var d, b := ParseIsoDate(due).value, ParseIsoDate(date).value;
    PrecedesStrictTotal(d, b, d);
    if d == b {
      ParseInjective(due, date);
    }
  }

  /** Two tasks, one due 2026-01-01 and to do, one due 2026-03-01 and done. */
  const ScenarioTasks: seq<Task> :=
    [Task(1, "A", "", "2026-01-01", StatusTodo), Task(2, "B", "", "2026-03-01", StatusDone)]

  lemma ScenarioStatusFilter()
    ensures Visible(ScenarioTasks, NoFilters.(status := StatusTodo)) == ScenarioTasks[..1]
  {
    var f := NoFilters.(status := StatusTodo);
    assert ScenarioTasks[1..][1..] == [];
    assert Visible(ScenarioTasks, f) == [ScenarioTasks[0]] + Filter(Passes(f), ScenarioTasks[1..]);
  }

  lemma ScenarioJanuary()
    ensures ParseIsoDate("2026-01-01") == Some(Date(2026, 1, 1))
  {
    IsoFields("2026-01-01");
  }

  lemma ScenarioFebruary()
    ensures ParseIsoDate("2026-02-01") == Some(Date(2026, 2, 1))
  {
    IsoFields("2026-02-01");
  }

  lemma ScenarioMarch()
    ensures ParseIsoDate("2026-03-01") == Some(Date(2026, 3, 1))
  {
    IsoFields("2026-03-01");
  }

  lemma ScenarioOnOrAfterFilter()
    ensures Visible(ScenarioTasks, NoFilters.(date := "2026-02-01", dateMode := "after")) == ScenarioTasks[1..]
  {
    var f := NoFilters.(date := "2026-02-01", dateMode := "after");
    var t0, t1 := ScenarioTasks[0], ScenarioTasks[1];
    ScenarioJanuary();
    ScenarioFebruary();
    ScenarioMarch();
    assert !DueOnOrAfter(t0.dueDate, f.date) && DueOnOrAfter(t1.dueDate, f.date);
    assert !Matches(t0, f);
    assert Matches(t1, f);
    var r := Filter(Passes(f), ScenarioTasks[1..]);
    assert Visible(ScenarioTasks, f) == r;
    assert ScenarioTasks[1..][1..] == [];
    assert r == [t1];
  }

  // ---------------------------------------------------------------------------
  // Derived row attributes

  /**
   * "isOverdue" on calendar days: not done, has a due date, and that day is
   * strictly before `today`, the viewer's local calendar date.
   */
  predicate IsOverdue(t: Task, today: Date) {
    if t.dueDate == "" || t.status == StatusDone then false
    else match ParseIsoDate(t.dueDate)
      case None => false
      case Some(due) => Precedes(due, today)
  }

  /**
   * A numbering of calendar days that increases with the calendar. It is not
   * the count of days since an epoch, but consecutive days differ by at least
   * one, which is all the comparisons below depend on.
   */
  function DayIndex(d: Date): nat {
    (d.year * 13 + d.month) * 32 + d.day
  }

  lemma DayIndexOrder(a: Date, b: Date)
    requires Valid(a) && Valid(b)
    ensures Precedes(a, b) <==> DayIndex(a) < DayIndex(b)
    ensures a == b <==> DayIndex(a) == DayIndex(b)
  {
  }

  /**
   * "isOverdue" as written: the due date string is read as midnight UTC, while
   * "today" is midnight of the viewer's local day, `utcOffset` minutes east of
   * UTC. Instants are in minutes on the DayIndex scale.
   */
  predicate IsOverdueAsWritten(t: Task, today: Date, utcOffset: int)
    requires Valid(today) && -1440 < utcOffset < 1440
  {
    if t.dueDate == "" || t.status == StatusDone then false
    else match ParseIsoDate(t.dueDate)
      case None => false
      case Some(due) => DayIndex(due) * 1440 < DayIndex(today) * 1440 - utcOffset
  }

  /**
   * East of UTC the written comparison is the calendar one; west of UTC it also
   * reports a task due today as overdue.
   */
  lemma OverdueAsWrittenVersusCalendar(t: Task, today: Date, utcOffset: int)
    requires Valid(today) && -1440 < utcOffset < 1440
    ensures utcOffset >= 0 ==> (IsOverdueAsWritten(t, today, utcOffset) <==> IsOverdue(t, today))
    ensures utcOffset < 0 ==>
      (IsOverdueAsWritten(t, today, utcOffset) <==>
        IsOverdue(t, today) ||
        (t.dueDate != "" && t.status != StatusDone && ParseIsoDate(t.dueDate) == Some(today)))
  {
    if t.dueDate != "" && t.status != StatusDone && ParseIsoDate(t.dueDate).Some? {
      var due := ParseIsoDate(t.dueDate).value;
      DayIndexOrder(due, today);
    }
  }

  /** A task due on the viewer's own day, five hours west of UTC, is shown as overdue. */
  lemma DueTodayOverdueWestOfUtc()
    ensures IsOverdueAsWritten(Task(1, "A", "", "2026-02-10", StatusTodo), Date(2026, 2, 10), -300)
    ensures !IsOverdue(Task(1, "A", "", "2026-02-10", StatusTodo), Date(2026, 2, 10))
  {
    IsoFields("2026-02-10");
  }

  /** Once overdue, a task stays overdue as the days pass (until it is done or its date changes). */
  lemma OverdueOnlyGrows(t: Task, today: Date, later: Date)
    requires OnOrBefore(today, later) && IsOverdue(t, today)
    ensures IsOverdue(t, later)
  {
    var due := ParseIsoDate(t.dueDate).value;
    PrecedesStrictTotal(due, today, later);
  }

  /**
   * Overdue means: not done, and a due date that is a calendar day strictly
   * before today; in particular a task due today is not overdue.
   */
  lemma OverdueMeansPastDueDay(t: Task, today: Date)
    ensures IsOverdue(t, today) <==>
      t.status != StatusDone && ParseIsoDate(t.dueDate).Some? && Precedes(ParseIsoDate(t.dueDate).value, today)
    ensures ParseIsoDate(t.dueDate) == Some(today) ==> !IsOverdue(t, today)
  {
    PrecedesStrictTotal(today, today, today);
  }

  /** Done tasks and undated tasks are never overdue. */
  lemma NeverOverdue(t: Task, today: Date)
    requires t.status == StatusDone || t.dueDate == ""
    ensures !IsOverdue(t, today)
  {
  }

  /** Row class, in priority order: done, then overdue, then in progress, then none. */
  function RowClass(t: Task, today: Date): string {
    if t.status == StatusDone then "row-done"
    else if IsOverdue(t, today) then "row-overdue"
    else if t.status == StatusInProgress then "row-in-progress"
    else ""
  }

  function TextClass(t: Task): string {
    if t.status == StatusDone then "text-done" else ""
  }

  /** Badge class; every status other than "Done" and "In Progress" gets the todo badge. */
  function BadgeClass(status: string): string {
    match status
    case "Done" => "badge-done"
    case "In Progress" => "badge-in-progress"
    case _ => "badge-todo"
  }

  /** What each row class means for the task it is given to. */
  lemma RowClassMeaning(t: Task, today: Date)
    ensures RowClass(t, today) == "row-done" <==> t.status == StatusDone
    ensures RowClass(t, today) == "row-overdue" <==> IsOverdue(t, today)
    ensures RowClass(t, today) == "row-in-progress" <==> t.status == StatusInProgress && !IsOverdue(t, today)
    ensures RowClass(t, today) == "" <==> t.status != StatusDone && t.status != StatusInProgress && !IsOverdue(t, today)
  {
  }

  /** The row, text and badge classes agree on which tasks are done, and an in-progress row carries the in-progress badge. */
  lemma ClassesAgree(t: Task, today: Date)
    ensures RowClass(t, today) == "row-done" <==> TextClass(t) == "text-done"
    ensures RowClass(t, today) == "row-done" <==> BadgeClass(t.status) == "badge-done"
    ensures RowClass(t, today) == "row-in-progress" ==> BadgeClass(t.status) == "badge-in-progress"
    ensures BadgeClass(t.status) == "badge-todo" <==> t.status != StatusDone && t.status != StatusInProgress
  {
  }

  // ---------------------------------------------------------------------------
  // The filter settings as the table's state

  class TaskTableState {
    var searchQuery: string
    var filterStatus: string
    var filterDate: string
    var filterDateType: string

    function Settings(): Filters
      reads this
    {
      Filters(searchQuery, filterStatus, filterDate, filterDateType)
    }

    predicate HasActiveFilters()
      reads this
    {
      IsActive(Settings())
    }

    function FilteredTasks(tasks: seq<Task>): seq<Task>
      reads this
    {
      Visible(tasks, Settings())
    }

    constructor ()
      ensures Settings() == NoFilters
    {
      searchQuery, filterStatus, filterDate, filterDateType := "", "all", "", "exact";
    }

    method SetSearchQuery(query: string)
      modifies this
      ensures Settings() == old(Settings()).(search := query)
    {
      searchQuery := query;
    }

    method SetFilterStatus(status: string)
      modifies this
      ensures Settings() == old(Settings()).(status := status)
    {
      filterStatus := status;
    }

    method SetFilterDate(date: string)
      modifies this
      ensures Settings() == old(Settings()).(date := date)
    {
      filterDate := date;
    }

    method SetFilterDateType(mode: string)
      modifies this
      ensures Settings() == old(Settings()).(dateMode := mode)
    {
      filterDateType := mode;
    }

    /** "Clear All": back to the initial settings, after which the table shows every task. */
    method ClearFilters()
      modifies this
      ensures Settings() == NoFilters
      ensures !HasActiveFilters()
      ensures forall tasks :: FilteredTasks(tasks) == tasks
    {
      searchQuery, filterStatus, filterDate, filterDateType := "", "all", "", "exact";
      forall tasks ensures FilteredTasks(tasks) == tasks {
        InactiveFiltersShowAll(tasks, Settings());
      }
    }
  }
}
