/**
 * The computations of gui/main_window.py once the widgets are stripped away:
 * the list view built by `refresh_task_list` (status filter, search, sort,
 * item colours, progress) and the theme switch of `toggle_theme`.
 */
module MainView {
  import opened Results
  import opened Seqs
  import opened DateTimes
  import opened Tasks
  import opened FileHandler
  import opened TaskManagement

  /** The status menu's entry that disables the status filter. */
  const AllStatuses := "All"
  /** The sort radio button's value for sorting by deadline; any other value sorts by priority. */
  const SortByDeadline := "deadline"

  // ---------------------------------------------------------------------------
  // Search

  /** `str.lower()` on one character, for ASCII letters. */
  function LowerChar(c: char): char {
    if 'A' <= c <= 'Z' then (c as int - 'A' as int + 'a' as int) as char else c
  }

  /** `str.lower()`, for ASCII letters. */
  function Lower(s: string): (r: string)
    ensures |r| == |s|
    ensures forall i :: 0 <= i < |s| ==> r[i] == LowerChar(s[i])
    ensures forall i :: 0 <= i < |r| ==> !('A' <= r[i] <= 'Z')
  {
    seq(|s|, i requires 0 <= i < |s| => LowerChar(s[i]))
  }

  /** `part` occurs in `text` starting at position `i`. */
  predicate OccursAt(text: string, part: string, i: nat) {
    i + |part| <= |text| && text[i..i + |part|] == part
  }

  /** Python's `part in text` on strings: `part` occurs as a contiguous run of `text`. */
  function Contains(text: string, part: string): (b: bool)
    ensures b <==> exists i: nat :: OccursAt(text, part, i)
    decreases |text|
  {
    if |part| > |text| then false
    else if text[..|part|] == part then
      assert OccursAt(text, part, 0);
      true
    else
      var b := Contains(text[1..], part);
      assert b ==> exists i: nat :: OccursAt(text, part, i) by {
        if b {
          var i: nat :| OccursAt(text[1..], part, i);
          assert text[i + 1..i + 1 + |part|] == text[1..][i..i + |part|];
          assert OccursAt(text, part, i + 1);
        }
      }
      assert (exists i: nat :: OccursAt(text, part, i)) ==> b by {
        if exists i: nat :: OccursAt(text, part, i) {
          var i: nat :| OccursAt(text, part, i);
          assert i != 0;
          assert text[1..][i - 1..i - 1 + |part|] == text[i..i + |part|];
          assert OccursAt(text[1..], part, i - 1);
        }
      }
      b
  }

  /** The search test of line 111, for a query that is already lowered. */
  function MatchesQuery(query: string): Task -> bool {
    (t: Task) => Contains(Lower(t.title), query) || Contains(Lower(t.description), query)
  }

  /** The search step: no filtering for an empty query; otherwise the matching tasks, in order. */
  function SearchView(tasks: seq<Task>, query: string): (r: seq<Task>)
    ensures query == "" ==> r == tasks
    ensures query != "" ==> forall t :: t in r <==>
      t in tasks && (Contains(Lower(t.title), query) || Contains(Lower(t.description), query))
    ensures query != "" ==> forall t :: multiset(r)[t] == if MatchesQuery(query)(t) then multiset(tasks)[t] else 0
    ensures IsSubsequence(r, tasks)
  {
    if query != "" then
      FilterIsSubsequence(tasks, MatchesQuery(query));
      Filter(tasks, MatchesQuery(query))
    else
      SubsequenceReflexive(tasks);
      tasks
  }

  /** The `if query:` guard changes nothing: the empty query occurs in every title. */
  lemma {:induction false} EmptyQueryMatchesAll(tasks: seq<Task>)
    ensures Filter(tasks, MatchesQuery("")) == tasks
  {
    forall i | 0 <= i < |tasks| ensures MatchesQuery("")(tasks[i]) {
      assert OccursAt(Lower(tasks[i].title), "", 0);
    }
    FilterKeepsAll(tasks, MatchesQuery(""));
  }

  // ---------------------------------------------------------------------------
  // Status filter

  /** The status step: everything for "All"; otherwise exactly the tasks of that status, in order. */
  function StatusView(tasks: seq<Task>, selected: string): (r: seq<Task>)
    ensures selected == AllStatuses ==> r == tasks
    ensures selected != AllStatuses ==> forall i :: 0 <= i < |r| ==> r[i].status == selected
    ensures selected != AllStatuses ==> forall t: Task :: t.status == selected ==> multiset(r)[t] == multiset(tasks)[t]
    ensures IsSubsequence(r, tasks)
  {
    if selected != AllStatuses then
      FilterIsSubsequence(tasks, HasStatus(selected));
      Filter(tasks, HasStatus(selected))
    else
      SubsequenceReflexive(tasks);
      tasks
  }

  // ---------------------------------------------------------------------------
  // Sort

  /** The sort key `lambda t: t.deadline`, as an integer that orders deadlines as Python does. */
  function DeadlineKey(t: Task): int {
    Ordinal(t.deadline)
  }

  /** `priority_map.get(p, 4)` with `priority_map = {"High": 1, "Medium": 2, "Low": 3}`. */
  function PriorityRank(p: string): (r: int)
    ensures 1 <= r <= 4
    ensures r == 1 <==> p == "High"
    ensures r == 2 <==> p == "Medium"
    ensures r == 3 <==> p == "Low"
  {
    if p == "High" then 1 else if p == "Medium" then 2 else if p == "Low" then 3 else 4
  }

  function PriorityKey(t: Task): int {
    PriorityRank(t.priority)
  }

  function SortKey(sortBy: string): Task -> int {
    if sortBy == SortByDeadline then DeadlineKey else PriorityKey
  }

  /** The sort step: `list.sort` with the deadline key or the priority rank. */
  function SortView(tasks: seq<Task>, sortBy: string): (r: seq<Task>)
    ensures |r| == |tasks| && multiset(r) == multiset(tasks)
    ensures sortBy == SortByDeadline ==> SortedBy(r, DeadlineKey)
    ensures sortBy != SortByDeadline ==> SortedBy(r, PriorityKey)
  {
    SortBy(tasks, SortKey(sortBy))
  }

  /** After the deadline sort no task has a deadline earlier than one listed before it. */
  lemma DeadlineSortIsChronological(tasks: seq<Task>)
    ensures var r := SortView(tasks, SortByDeadline);
      forall i, j :: 0 <= i < j < |r| ==> !Before(r[j].deadline, r[i].deadline)
  {
    var r := SortView(tasks, SortByDeadline);
    forall i, j | 0 <= i < j < |r| ensures !Before(r[j].deadline, r[i].deadline) {
      OrdinalOrder(r[j].deadline, r[i].deadline);
    }
  }

  /** After the priority sort High precedes Medium, which precedes Low, which precedes any other value. */
  lemma PrioritySortOrder(tasks: seq<Task>, sortBy: string)
    requires sortBy != SortByDeadline
    ensures var r := SortView(tasks, sortBy);
      forall i, j :: 0 <= i < j < |r| ==>
        && (r[j].priority == "High" ==> r[i].priority == "High")
        && (r[j].priority == "Medium" ==> r[i].priority in {"High", "Medium"})
        && (r[j].priority == "Low" ==> r[i].priority in {"High", "Medium", "Low"})
  {
    var r := SortView(tasks, sortBy);
    forall i, j | 0 <= i < j < |r|
      ensures r[j].priority == "High" ==> r[i].priority == "High"
      ensures r[j].priority == "Medium" ==> r[i].priority in {"High", "Medium"}
      ensures r[j].priority == "Low" ==> r[i].priority in {"High", "Medium", "Low"}
    {
      assert PriorityKey(r[i]) <= PriorityKey(r[j]);
    }
  }

  /** The sort is stable: tasks with equal keys keep their relative order. */
  lemma SortViewStable(tasks: seq<Task>, sortBy: string, k: int)
    ensures Filter(SortView(tasks, sortBy), KeyIs(SortKey(sortBy), k))
         == Filter(tasks, KeyIs(SortKey(sortBy), k))
  {
    SortByStable(tasks, SortKey(sortBy), k);
  }

  // ---------------------------------------------------------------------------
  // Colours and progress

  datatype Color = Black | Green | Orange | Red

  /** The foreground colour of a list item: the first of the four rules that applies. */
  function ItemColor(t: Task, now: DateTime): (c: Color)
    ensures c == Green <==> t.status == Completed
    ensures c == Orange <==> t.status == InProgress
    ensures c == Red <==> t.status != Completed && t.status != InProgress && IsOverdue(t, now)
    ensures c == Black <==> t.status != Completed && t.status != InProgress && !IsOverdue(t, now)
  {
    if t.status == Completed then Green
    else if t.status == InProgress then Orange
    else if Before(t.deadline, now) then Red
    else Black
  }

  /** The number of completed tasks among `tasks`. */
  function CompletedCount(tasks: seq<Task>): (n: nat)
    ensures n <= |tasks|
    ensures n == 0 <==> forall i :: 0 <= i < |tasks| ==> tasks[i].status != Completed
    ensures n == |set i: nat | i < |tasks| && tasks[i].status == Completed|
    ensures (forall i :: 0 <= i < |tasks| ==> tasks[i].status == Completed) ==> n == |tasks|
  {
    var done := Filter(tasks, HasStatus(Completed));
    assert forall i :: 0 <= i < |tasks| && tasks[i].status == Completed ==> tasks[i] in done;
    assert |done| == |IndicesWhere(tasks, HasStatus(Completed), |tasks|)| by {
      FilterCountsIndices(tasks, HasStatus(Completed), |tasks|);
      assert tasks[..|tasks|] == tasks;
    }
    assert IndicesWhere(tasks, HasStatus(Completed), |tasks|)
        == set i: nat | i < |tasks| && tasks[i].status == Completed;
    if forall i :: 0 <= i < |tasks| ==> tasks[i].status == Completed then
      FilterKeepsAll(tasks, HasStatus(Completed));
      |done|
    else
      |done|
  }

  /**
   * `int((completed / total) * 100) if total else 0`, with exact division in
   * place of floating point.
   */
  function Percent(completed: nat, total: nat): (p: int)
    requires completed <= total
    ensures total == 0 ==> p == 0
    ensures 0 <= p <= 100
    ensures completed == 0 ==> p == 0
    ensures 0 < total && completed == total ==> p == 100
  {
    if total == 0 then 0
    else
      PercentOfPart(completed, total);
      completed * 100 / total
  }

  lemma PercentOfPart(completed: nat, total: nat)
    requires 0 < total && completed <= total
    ensures 0 <= completed * 100 / total <= 100
    ensures completed == total ==> completed * 100 / total == 100
  {
    var q, r := completed * 100 / total, completed * 100 % total;
    assert completed * 100 == q * total + r && 0 <= r < total;
    if q > 100 {
      MulMonotone(q, 101, total);
    }
    if completed == total && q < 100 {
      MulMonotone(99, q, total);
    }
  }

  lemma MulMonotone(a: int, b: int, c: nat)
    requires a >= b
    ensures a * c >= b * c
  {
    var gap := a - b;
    assert gap * c >= 0;
    assert a * c == b * c + gap * c;
  }

  /** The loop over `enumerate(self.visible_tasks)`: one colour per row, in row order. */
  method PaintRows(rows: seq<Task>, now: DateTime) returns (colors: seq<Color>)
    ensures |colors| == |rows|
    ensures forall i :: 0 <= i < |rows| ==> colors[i] == ItemColor(rows[i], now)
  {
    colors := [];
    for index := 0 to |rows|
      invariant |colors| == index
      invariant forall j :: 0 <= j < index ==> colors[j] == ItemColor(rows[j], now)
    {
      colors := colors + [ItemColor(rows[index], now)];
    }
  }

  // ---------------------------------------------------------------------------
  // Themes

  datatype Palette = Palette(bg: string, fg: string, entryBg: string, buttonBg: string)

  /** `self.themes`. */
  const Themes: map<string, Palette> := map[
    "light" := Palette("#f0f8ff", "#000080", "#ffffff", "#dbe9ff"),
    "dark" := Palette("#1e1e2f", "#c0d6f0", "#2e2e3d", "#3a4a6b")]

  /** The theme name after `toggle_theme`: "dark" from "light", "light" from anything else. */
  function Toggled(theme: string): (r: string)
    ensures r in Themes
    ensures theme in Themes ==> r != theme
    ensures theme !in Themes ==> r == "light"
  {
    if theme == "light" then "dark" else "light"
  }

  /** Two toggles restore a light or dark theme. */
  lemma ToggleTwice(theme: string)
    requires theme in Themes
    ensures Toggled(Toggled(theme)) == theme
  {
  }

  // ---------------------------------------------------------------------------
  // The window

  class MainWindow {
    const taskManager: TaskManager
    /** `self.current_theme`. */
    var currentTheme: string
    /** `self.visible_tasks`: the rows of the list box, in display order. */
    var visibleTasks: seq<Task>
    /** The foreground colour given to each row. */
    var itemColors: seq<Color>
    /** The progress bar's value. */
    var progress: int

    /**
     * `__init__` and `setup_ui`: a task manager is created over the data file,
     * the theme starts as "light", the widgets start with status "All", an
     * empty search and the deadline sort, the list is refreshed, and the theme
     * is toggled once.
     */
    constructor (file: StoredFile, freshIds: nat -> string, now: DateTime)
      requires Load(file, freshIds).Ok?
      ensures fresh(taskManager)
      ensures taskManager.tasks == Load(file, freshIds).value && taskManager.saved == file
      ensures currentTheme == "dark"
      ensures visibleTasks == SortView(taskManager.tasks, SortByDeadline)
    {
      taskManager := new TaskManager(file, freshIds);
      currentTheme := "light";
      visibleTasks := [];
      itemColors := [];
      progress := 0;
      new;
      RefreshTaskList(AllStatuses, "", SortByDeadline, now);
      var _ := ToggleTheme();
    }

    /**
     * `refresh_task_list`: the widgets' current values and the clock are the
     * parameters. Filtering and sorting work on a copy of the manager's list.
     */
    method RefreshTaskList(status: string, search: string, sortBy: string, now: DateTime)
      modifies this`visibleTasks, this`itemColors, this`progress
      ensures visibleTasks ==
        SortView(SearchView(StatusView(taskManager.tasks, status), Lower(search)), sortBy)
      ensures |itemColors| == |visibleTasks|
      ensures forall i :: 0 <= i < |visibleTasks| ==> itemColors[i] == ItemColor(visibleTasks[i], now)
      ensures progress == Percent(CompletedCount(visibleTasks), |visibleTasks|)
      ensures 0 <= progress <= 100
      ensures taskManager.tasks == old(taskManager.tasks)
    {
      ghost var listed := taskManager.tasks;
      SelectVisible(status, search, sortBy);
      var rows := visibleTasks;
      assert rows == SortView(SearchView(StatusView(listed, status), Lower(search)), sortBy);

      itemColors := PaintRows(rows, now);

      var total := |rows|;
      var completed := CompletedCount(rows);
      progress := Percent(completed, total);
      assert taskManager.tasks == listed && visibleTasks == rows;
    }

    /** Lines 101-118 of `refresh_task_list`: copy, filter by status, filter by search, sort. */
    method SelectVisible(status: string, search: string, sortBy: string)
      modifies this`visibleTasks
      ensures visibleTasks ==
        SortView(SearchView(StatusView(taskManager.tasks, status), Lower(search)), sortBy)
    {
      var tasks := taskManager.ListTasks(None);
      visibleTasks := tasks;

      if status != AllStatuses {
        visibleTasks := Filter(visibleTasks, HasStatus(status));
      }

      var query := Lower(search);
      if query != "" {
        visibleTasks := Filter(visibleTasks, MatchesQuery(query));
      }

      visibleTasks := SortView(visibleTasks, sortBy);
    }

    /** `toggle_theme`: flips the theme and returns the palette it applies to the widgets. */
    method ToggleTheme() returns (palette: Palette)
      modifies this`currentTheme
      ensures currentTheme == Toggled(old(currentTheme))
      ensures currentTheme in Themes && palette == Themes[currentTheme]
    {
      currentTheme := Toggled(currentTheme);
      palette := Themes[currentTheme];
    }
  }
}
