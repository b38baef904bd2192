# Smart Task Manager — a verified model of its core

This project models the logic of a small desktop task tracker in Dafny:

- the **Task** entity: construction with its priority check and defaults, the two status setters, the overdue query, and the eight-field record codec `to_dict` / `from_dict`;
- the **task manager**: an ordered list of tasks with append, first-match lookup, patch-by-id, delete-all-by-id and filter-by-status, where every mutation rewrites the whole data file;
- the **list view** of the main window: copy the manager's list, filter by status, filter by a case-insensitive search, stable-sort by deadline or priority rank, colour each row, and compute the progress percentage; plus the light/dark theme switch.

Files, one module each:

| file | module | models |
|---|---|---|
| `results.dfy` | `Results` | `Option` and `Result` (None and raised exceptions) |
| `seqs.dfy` | `Seqs` | list comprehensions with a condition (`Filter`) and the stable `list.sort` (`SortBy`) |
| `datetimes.dfy` | `DateTimes` | naive `datetime` values, their order, `isoformat` and `fromisoformat` |
| `tasks.dfy` | `Tasks` | `core/task.py` |
| `file_handler.dfy` | `FileHandler` | `core/file_handler.py` |
| `task_manager.dfy` | `TaskManagement` | `core/task_manager.py` |
| `main_window.dfy` | `MainView` | `refresh_task_list` and `toggle_theme` of `gui/main_window.py` |

Modelling choices:

- A task is a value (`datatype Task`). `status` and `priority` are strings: the update path can store values that the constructor would reject.
- Timestamps are naive datetimes: a record of seven fields restricted by the `datetime` range checks, days per month and leap years included. `isoformat` is modelled down to its text. `fromisoformat` is modelled for the forms that `isoformat` writes, plus a date alone. Python's `<` on datetimes is the field-by-field order (`Before`). An integer key (`Ordinal`) is proved to give the same order and is used as the deadline sort key.
- The clock (`datetime.now()`), the uuid generator and the widget values are parameters. The data file is a parameter `StoredFile`: not found, not JSON, or a list of records.
- Records are maps from a `Key` datatype (the eight JSON keys) to text. All values in the file are strings.
- The manager's ghost field `saved` is the data file. Each mutation overwrites it with the records of the whole list (`Persisted()`).
- `update_task(**kwargs)` takes a `Patch`: one optional value per data attribute.
- `str.lower()` is modelled on ASCII letters.
- The window is a class. It holds the manager, the theme name, the visible rows, their colours and the progress value. `refresh_task_list` takes the status menu, the search text, the sort choice and the clock as parameters.

## Model

| member | source | states |
|---|---|---|
| `Seqs.Filter` | gui/main_window.py:106 | the kept elements are exactly those of the input that satisfy the test, each with its full multiplicity, and never more than the input |
| `Seqs.FilterAppend` | core/task_manager.py:31 | filtering a concatenation is the concatenation of the filtered parts, so kept elements keep their relative order |
| `Seqs.FilterIsSubsequence` | core/task_manager.py:31 | what a comprehension keeps is a subsequence of the input |
| `Seqs.FilterKeepsAll` | core/task_manager.py:31 | when every element passes the test, the comprehension returns the list unchanged |
| `Seqs.SortBy` | gui/main_window.py:114-118 | `list.sort(key=...)` returns a permutation of its input (same multiset) whose keys never decrease |
| `Seqs.SortByStable` | gui/main_window.py:114-118 | the sort is stable: within each key class, the order is that of the input |
| `DateTimes.Before` | gui/main_window.py:129 | `<` on naive datetimes compares field by field, year first; a datetime is never before itself |
| `DateTimes.BeforeStrictOrder` | core/task.py:38 | `<` on datetimes is a strict total order: irreflexive, asymmetric, transitive, and any two distinct datetimes are ordered one way or the other |
| `DateTimes.OrdinalOrder` | core/task.py:38 | the integer key orders datetimes exactly as Python's `<` on naive datetimes does, and distinct datetimes get distinct keys |
| `DateTimes.ParseDigits` | core/task.py:13 | a field of the ISO text parses iff every character is an ASCII digit, and its value fits in the field's width |
| `DateTimes.Pad` | core/task.py:46 | a zero-padded decimal field of width `w` is exactly `w` ASCII digits |
| `DateTimes.ParsePad` | core/task.py:46 | a zero-padded decimal field reads back as the number written |
| `DateTimes.IsoFormat` | core/task.py:46 | `isoformat` text is 19 characters, or 26 when the microsecond is not zero |
| `DateTimes.FromIsoFormat` | core/task.py:13 | `fromisoformat` accepts only the 10-, 19- and 26-character forms; a date alone means midnight |
| `DateTimes.IsoRoundTrip` | core/task.py:46 | `fromisoformat(d.isoformat()) == d` for every datetime |
| `Tasks.NewTask` | core/task.py:7-26 | construction fails exactly when the deadline text, the priority or the creation-date text is invalid; a bad priority raises once the deadline is read; the priority defaults to "Medium"; a truthy id is kept and a falsy one replaced by the fresh id; title, description, category and status are stored unchecked; a missing creation date becomes the clock reading |
| `Tasks.MarkCompleted` | core/task.py:28-30 | status becomes "COMPLETED" from any status, and no other field changes |
| `Tasks.MarkInProgress` | core/task.py:32-34 | status becomes "IN_PROGRESS" from any status, and no other field changes |
| `Tasks.MarkIdempotent` | core/task.py:28-34 | applying either setter twice equals applying it once |
| `Tasks.IsOverdue` | core/task.py:36-38 | overdue iff the deadline comes strictly before the clock reading; a deadline equal to now is not overdue |
| `Tasks.ToRecord` | core/task.py:40-51 | the record has all eight keys, the text fields verbatim and both timestamps in `isoformat` text |
| `Tasks.MissingFrom` | core/task.py:56-64 | names the first key, in lookup order, absent from a record, and only when one is absent |
| `Tasks.FromRecord` | core/task.py:53-64 | a record missing a key raises KeyError for the first missing key; a decoded task has a valid priority, and its id is the record's id unless that is empty |
| `Tasks.RecordRoundTrip` | core/task.py:40-64 | `from_dict(to_dict(t)) == t` when the id is non-empty and the priority valid |
| `Tasks.RecordRejectsInvalidPriority` | core/task.py:19-20 | a task holding an invalid priority cannot be read back: `from_dict(to_dict(t))` raises the priority error |
| `Tasks.RecordReplacesEmptyId` | core/task.py:9 | a task with an empty id comes back with the fresh id and otherwise unchanged |
| `FileHandler.SaveTasks` | core/file_handler.py:10 | one record per task, in list order, each the task's `to_dict` |
| `FileHandler.DecodeFrom` | core/file_handler.py:25 | on success, task `j` is what `from_dict` makes of record `i + j` (so one task per record, in order), and every task has a valid priority; when any record fails to decode, the result is an error, and that error is the one the first failing record raises |
| `FileHandler.LoadAsWritten` | core/file_handler.py:17-30 | as written: a missing file gives None; a file that is not JSON gives the empty list; a list of records gives the decoded list, or the error of the first record that fails |
| `FileHandler.LoadMissingGivesNone` | core/file_handler.py:26-27 | as written, a missing file gives None, which differs from the empty list given for a malformed file |
| `FileHandler.Load` | core/file_handler.py:17-30 | a missing or malformed file gives the empty list; otherwise the records are decoded, and every loaded task has a valid priority |
| `FileHandler.SaveLoadRoundTrip` | core/file_handler.py:4-30 | saving a list and loading it back gives the same list when every task has a non-empty id and a valid priority |
| `TaskManagement.FirstIndex` | core/task_manager.py:16-17 | the position of the first task with the id, or None exactly when no task has it |
| `TaskManagement.FirstIndexAfterAppend` | core/task_manager.py:11-17 | after appending `t`, a lookup of `t.id` finds `t` only when no earlier task has that id (no duplicate check) |
| `TaskManagement.ApplyPatch` | core/task_manager.py:22-24 | each of the eight attributes takes the patched value when the patch names it, unchecked (so status and priority may become any text), and is unchanged otherwise; an empty patch changes nothing |
| `TaskManagement.ApplyPatchIdempotent` | core/task_manager.py:22-24 | applying the same patch twice equals applying it once |
| `TaskManagement.DeleteProperties` | core/task_manager.py:29-31 | after deleting by id no task has the id, the rest keep their order and all survive, and an absent id leaves the list unchanged |
| `TaskManagement.TaskManager.constructor` | core/task_manager.py:5-9 | the list is what loading the data file gives, and the file is untouched |
| `TaskManagement.TaskManager.SaveToFile` | core/task_manager.py:44-46 | afterwards the file holds exactly the records of the current list |
| `TaskManagement.TaskManager.AddTask` | core/task_manager.py:11-14 | the list becomes the old list plus `t` at the end, and the file holds the new list |
| `TaskManagement.TaskManager.GetTask` | core/task_manager.py:16-17 | returns the first task in list order with the id, or None exactly when no task has it |
| `TaskManagement.TaskManager.UpdateTask` | core/task_manager.py:19-27 | returns True iff some task has the id; then only the first such task is patched, the length and all other tasks are unchanged and the file is rewritten; otherwise neither the list nor the file changes |
| `TaskManagement.TaskManager.DeleteTask` | core/task_manager.py:29-32 | the list becomes the tasks with another id, in order; it is unchanged when the id is absent; the file is rewritten either way |
| `TaskManagement.TaskManager.ListTasks` | core/task_manager.py:34-38 | with a truthy filter, exactly the tasks of that status in list order, each with its multiplicity in the list; with None or "" the whole list; the list itself is never changed |
| `TaskManagement.AddThenGet` | core/task_manager.py:11-17 | after `add_task(t)`, `get_task(t.id)` is `t` when the id was new, and reloading the file gives the list back |
| `TaskManagement.UpdateThenGet` | core/task_manager.py:16-27 | a status update on a present id succeeds and `get_task` shows the new status; on an absent id it fails and the file is unchanged |
| `TaskManagement.DeleteThenGet` | core/task_manager.py:16-32 | after `delete_task(id)`, `get_task(id)` finds nothing and no record in the file has that id |
| `MainView.Lower` | gui/main_window.py:109 | lowering keeps the length, maps each character, and leaves no upper-case ASCII letter |
| `MainView.Contains` | gui/main_window.py:111 | `part in text` holds iff `part` occurs at some position of `text` |
| `MainView.SearchView` | gui/main_window.py:108-111 | an empty query keeps every task; otherwise a task is kept iff the query occurs in its lowered title or lowered description, with its full multiplicity; order is kept |
| `MainView.EmptyQueryMatchesAll` | gui/main_window.py:110-111 | filtering with the empty query would also keep every task, so the `if query` guard does not change the result |
| `MainView.StatusView` | gui/main_window.py:104-106 | "All" keeps the list; any other selection keeps only tasks of that status and drops none of them, in order |
| `MainView.PriorityRank` | gui/main_window.py:117-118 | High ranks 1, Medium 2, Low 3, any other value 4 |
| `MainView.SortView` | gui/main_window.py:113-118 | the rows are a permutation of the filtered tasks, sorted by deadline key or by priority rank |
| `MainView.DeadlineSortIsChronological` | gui/main_window.py:114-115 | after the deadline sort no row's deadline is before that of an earlier row |
| `MainView.PrioritySortOrder` | gui/main_window.py:116-118 | after the priority sort, High rows precede Medium rows, which precede Low rows, which precede all others |
| `MainView.SortViewStable` | gui/main_window.py:113-118 | both sorts keep the filtered order among tasks with equal keys |
| `MainView.ItemColor` | gui/main_window.py:124-130 | green iff COMPLETED; orange iff IN_PROGRESS; red iff neither and overdue; black otherwise |
| `MainView.PaintRows` | gui/main_window.py:120-132 | one colour per row, in row order, each given by the colour rule |
| `MainView.CompletedCount` | gui/main_window.py:136 | the count is the number of rows whose status is COMPLETED: never more than the rows, zero iff none is COMPLETED, all the rows when all are |
| `MainView.Percent` | gui/main_window.py:135-137 | 0 with no rows or none completed, 100 when all are completed, and always within 0..100 |
| `MainView.Toggled` | gui/main_window.py:207-208 | the result is "light" or "dark", differs from a light or dark input, and is "light" from any other name |
| `MainView.ToggleTwice` | gui/main_window.py:207-208 | two toggles restore a light or dark theme |
| `MainView.MainWindow.constructor` | gui/main_window.py:7-97 | the window creates its own manager from the data file, shows every task sorted by deadline, and ends setup with the "dark" theme |
| `MainView.MainWindow.RefreshTaskList` | gui/main_window.py:99-139 | rows are the sorted, searched, status-filtered copy of the manager's list; one colour per row; progress from the completed count, within 0..100; the manager's list is unchanged |
| `MainView.MainWindow.SelectVisible` | gui/main_window.py:101-118 | the rows are the status filter, then the search filter, then the sort, applied to the manager's list |
| `MainView.MainWindow.ToggleTheme` | gui/main_window.py:207-209 | the theme name is toggled and the palette applied is that theme's |

## Left out

- Widgets: list box insertion, the row text built with `strftime`, popups, context menus, message boxes, the task editor form, and `apply_theme`'s walk of the widget tree. Only the values `refresh_task_list` computes are kept.
- In-place mutation of Task objects is modelled on values. `mark_completed`, `mark_in_progress` and `update_task`'s `setattr` return a new task value. So the model does not capture aliasing: `list_tasks` returns the live list, and the task editor overwrites fields of a shared task before `update_task` is called.
- TaskManagement.TaskManager.UpdateTask: keyword arguments that are not attributes cannot be written in a `Patch`, which is how the model reflects `hasattr` ignoring them. Method names, which `hasattr` also accepts, are not modelled. A value of the wrong type for an attribute (text for a deadline) cannot be written either.
- TaskManagement.TaskManager.constructor: requires that loading succeeds. When `from_dict` raises inside `load_tasks_from_file`, the Python constructor propagates the exception; the model has no object for that case.
- MainView.MainWindow.constructor: also requires that loading succeeds, for the same reason.
- MainView.Percent: computed with exact integer division. Python's `int((completed / total) * 100)` goes through floating point and can be one less (29 of 100 gives 28). The contract states only what holds for both: 0, 100 and the 0..100 bound.
- MainView.Lower: ASCII letters only. Unicode case mapping of `str.lower()` is not modelled.
- DateTimes.FromIsoFormat: parses only the three forms `isoformat` writes. Forms that every Python since 3.7 accepts are not parsed: hour only, hour and minute, milliseconds, and UTC offsets. The further forms accepted since 3.11 are not parsed either. So a data file holding such a timestamp makes the model's load fail where Python's succeeds. Time-zone-aware datetimes are not modelled.
- `Task.__str__`, the `print` diagnostics and the data file path are not modelled.
- JSON values other than strings, and JSON keys other than the eight task keys, are not modelled. `from_dict` ignores extra keys.
- MainView.MainWindow.RefreshTaskList: reads the clock once per refresh, through the parameter `now`. The source calls `datetime.now()` again for each row.
- The uuid generator and the clock are parameters. A fresh id is any string the caller supplies, and `freshIds(j)` is the id drawn for the j-th record.
- The `None` that the as-written load returns for a missing file is not carried into the manager. The manager uses the corrected `Load` (see Findings).

## Findings

| source | as written | input that shows it | evidently intended | confidence | as-written member | corrected member |
|---|---|---|---|---|---|---|
| core/file_handler.py:26-27 | the `FileNotFoundError` handler prints "Returning empty task list." but has no `return`, so the function returns None | no data file on the first run: `TaskManager().tasks` is None, and the window's first `refresh_task_list` fails at `tasks.copy()` | return `[]`, as the message says and as the `JSONDecodeError` handler does | high, not executed | `FileHandler.LoadAsWritten` (exhibited by `FileHandler.LoadMissingGivesNone`) | `FileHandler.Load` (with `FileHandler.SaveLoadRoundTrip`) |
