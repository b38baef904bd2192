/**
 * core/task_manager.py: the ordered task list, its lookups and mutations, and
 * the rule that every mutation is followed by a save of the whole list.
 */
module TaskManagement {
  import opened Results
  import opened Seqs
  import opened DateTimes
  import opened Tasks
  import opened FileHandler

  /** The position of the first task whose id is `id`: the scan `next(...)` performs. */
  function FirstIndex(tasks: seq<Task>, id: string): (r: Option<nat>)
    ensures r.None? <==> forall j :: 0 <= j < |tasks| ==> tasks[j].id != id
    ensures r.Some? ==> r.value < |tasks| && tasks[r.value].id == id
    ensures r.Some? ==> forall j :: 0 <= j < r.value ==> tasks[j].id != id
  {
    if tasks == [] then None
    else if tasks[0].id == id then Some(0)
    else match FirstIndex(tasks[1..], id)
      case None => None
      case Some(k) => Some(k + 1)
  }

  /** Appending a task makes it the answer to a lookup of its id only when no earlier task has that id. */
  lemma {:induction false} FirstIndexAfterAppend(tasks: seq<Task>, t: Task)
    ensures FirstIndex(tasks + [t], t.id) ==
      if FirstIndex(tasks, t.id).Some? then FirstIndex(tasks, t.id) else Some(|tasks|)
  {
    var s := tasks + [t];
    if FirstIndex(tasks, t.id).Some? {
      var k := FirstIndex(tasks, t.id).value;
      assert s[k] == tasks[k];
      assert forall j :: 0 <= j < k ==> s[j] == tasks[j];
    } else {
      assert forall j :: 0 <= j < |tasks| ==> s[j] == tasks[j];
      assert s[|tasks|] == t;
    }
  }

  /** Replacing the first match by a task with the same id leaves it the first match. */
  lemma FirstIndexAfterReplace(tasks: seq<Task>, k: nat, t: Task)
    requires FirstIndex(tasks, t.id) == Some(k)
    ensures FirstIndex(tasks[k := t], t.id) == Some(k)
  {
    var s := tasks[k := t];
    assert forall j :: 0 <= j < k ==> s[j] == tasks[j];
    FirstIndexIs(s, t.id, k);
  }

  /** The first index is determined by its two defining properties. */
  lemma FirstIndexIs(tasks: seq<Task>, id: string, k: nat)
    requires k < |tasks| && tasks[k].id == id
    requires forall j :: 0 <= j < k ==> tasks[j].id != id
    ensures FirstIndex(tasks, id) == Some(k)
  {
    var r := FirstIndex(tasks, id);
    assert r.Some?;
    assert !(r.value < k);
    assert !(k < r.value);
  }

  /**
   * The keyword arguments of `update_task`, one optional entry per data
   * attribute of a task; an absent entry leaves the attribute as it is.
   */
  datatype Patch = Patch(
    id: Option<string>,
    title: Option<string>,
    description: Option<string>,
    deadline: Option<DateTime>,
    category: Option<string>,
    status: Option<string>,
    priority: Option<string>,
    createdDate: Option<DateTime>)

  function Override<T>(entry: Option<T>, current: T): T {
    if entry.Some? then entry.value else current
  }

  /** `setattr(task, key, value)` for each entry: no validation, any value is stored. */
  function ApplyPatch(t: Task, p: Patch): (r: Task)
    ensures p == Patch(None, None, None, None, None, None, None, None) ==> r == t
    ensures (p.id.Some? ==> r.id == p.id.value) && (p.id.None? ==> r.id == t.id)
    ensures (p.title.Some? ==> r.title == p.title.value) && (p.title.None? ==> r.title == t.title)
    ensures (p.description.Some? ==> r.description == p.description.value)
         && (p.description.None? ==> r.description == t.description)
    ensures (p.deadline.Some? ==> r.deadline == p.deadline.value) && (p.deadline.None? ==> r.deadline == t.deadline)
    ensures (p.category.Some? ==> r.category == p.category.value) && (p.category.None? ==> r.category == t.category)
    ensures (p.status.Some? ==> r.status == p.status.value) && (p.status.None? ==> r.status == t.status)
    ensures (p.priority.Some? ==> r.priority == p.priority.value) && (p.priority.None? ==> r.priority == t.priority)
    ensures (p.createdDate.Some? ==> r.createdDate == p.createdDate.value)
         && (p.createdDate.None? ==> r.createdDate == t.createdDate)
  {
    Task(Override(p.id, t.id), Override(p.title, t.title), Override(p.description, t.description),
         Override(p.deadline, t.deadline), Override(p.category, t.category),
         Override(p.status, t.status), Override(p.priority, t.priority),
         Override(p.createdDate, t.createdDate))
  }

  /** Applying the same patch twice is the same as applying it once. */
  lemma ApplyPatchIdempotent(t: Task, p: Patch)
    ensures ApplyPatch(ApplyPatch(t, p), p) == ApplyPatch(t, p)
  {
  }

  /** The test `task.id != task_id` of `delete_task`. */
  function HasOtherId(id: string): Task -> bool {
    (t: Task) => t.id != id
  }

  /** Deleting by id leaves no task with that id and keeps the others in order. */
  lemma DeleteProperties(tasks: seq<Task>, id: string)
    ensures FirstIndex(Filter(tasks, HasOtherId(id)), id).None?
    ensures IsSubsequence(Filter(tasks, HasOtherId(id)), tasks)
    ensures forall t :: t in tasks && t.id != id ==> t in Filter(tasks, HasOtherId(id))
    ensures FirstIndex(tasks, id).None? ==> Filter(tasks, HasOtherId(id)) == tasks
  {
    FilterIsSubsequence(tasks, HasOtherId(id));
    if FirstIndex(tasks, id).None? {
      FilterKeepsAll(tasks, HasOtherId(id));
    }
  }

  /** The test `task.status == filter_by` of `list_tasks`. */
  function HasStatus(status: string): Task -> bool {
    (t: Task) => t.status == status
  }

  class TaskManager {
    /** `self.tasks`, in insertion order. */
    var tasks: seq<Task>
    /** The data file's contents, which every save overwrites. */
    ghost var saved: StoredFile

    /**
     * `__init__` and `load_from_file`: the list is what loading the data file
     * gives; `freshIds` supplies the ids drawn for records with an empty id.
     */
    constructor (file: StoredFile, freshIds: nat -> string)
      requires Load(file, freshIds).Ok?
      ensures tasks == Load(file, freshIds).value
      ensures saved == file
      ensures forall t :: t in tasks ==> t.priority in ValidPriorities
    {
      tasks := Load(file, freshIds).value;
      saved := file;
    }

    /** The data file holds exactly the records of the current list. */
    ghost predicate Persisted()
      reads this
    {
      saved == Records(SaveTasks(tasks))
    }

    /** `save_to_file`: writes the whole list. */
    method SaveToFile()
      modifies this`saved
      ensures Persisted()
    {
      saved := Records(SaveTasks(tasks));
    }

    /** `add_task`: appends without checking for a duplicate id, then saves. */
    method AddTask(t: Task)
      modifies this
      ensures tasks == old(tasks) + [t]
      ensures Persisted()
    {
      tasks := tasks + [t];
      SaveToFile();
    }

    /** `get_task`: the first task in list order with that id, or None. */
    function GetTask(id: string): (r: Option<Task>)
      reads this
      ensures r.None? <==> forall j :: 0 <= j < |tasks| ==> tasks[j].id != id
      ensures r.Some? ==> exists k :: 0 <= k < |tasks| && tasks[k] == r.value && r.value.id == id
                                     && forall j :: 0 <= j < k ==> tasks[j].id != id
    {
      match FirstIndex(tasks, id)
      case None => None
      case Some(k) => Some(tasks[k])
    }

    /**
     * `update_task`: patches the first task with that id and saves; returns
     * False, without saving, when no task has that id.
     */
    method UpdateTask(id: string, p: Patch) returns (updated: bool)
      modifies this
      ensures updated <==> exists j :: 0 <= j < |old(tasks)| && old(tasks)[j].id == id
      ensures !updated ==> tasks == old(tasks) && saved == old(saved)
      ensures updated ==>
        && FirstIndex(old(tasks), id).Some?
        && var k := FirstIndex(old(tasks), id).value;
        && tasks == old(tasks)[k := ApplyPatch(old(tasks)[k], p)]
        && Persisted()
    {
      match FirstIndex(tasks, id)
      case None =>
        updated := false;
      case Some(k) =>
        tasks := tasks[k := ApplyPatch(tasks[k], p)];
        SaveToFile();
        updated := true;
    }

    /** `delete_task`: keeps the tasks whose id differs, in order, then saves even if nothing was removed. */
    method DeleteTask(id: string)
      modifies this
      ensures tasks == Filter(old(tasks), HasOtherId(id))
      ensures forall j :: 0 <= j < |tasks| ==> tasks[j].id != id
      ensures FirstIndex(old(tasks), id).None? ==> tasks == old(tasks)
      ensures Persisted()
    {
      DeleteProperties(tasks, id);
      tasks := Filter(tasks, HasOtherId(id));
      SaveToFile();
    }

    /**
     * `list_tasks`: with a truthy filter, the tasks of that status in list
     * order; with None or "" the whole list.
     */
    function ListTasks(filterBy: Option<string>): (r: seq<Task>)
      reads this
      ensures !IsTruthy(filterBy) ==> r == tasks
      ensures IsTruthy(filterBy) ==> forall t :: t in r <==> t in tasks && t.status == filterBy.value
      ensures IsTruthy(filterBy) ==> forall t :: multiset(r)[t] == if t.status == filterBy.value then multiset(tasks)[t] else 0
      ensures IsTruthy(filterBy) ==> IsSubsequence(r, tasks)
    {
      if IsTruthy(filterBy) then
        FilterIsSubsequence(tasks, HasStatus(filterBy.value));
        Filter(tasks, HasStatus(filterBy.value))
      else tasks
    }
  }

  /** After `add_task(t)`, `get_task(t.id)` gives `t` back unless an earlier task has the same id. */
  method AddThenGet(m: TaskManager, t: Task, ghost freshIds: nat -> string) returns (found: Option<Task>)
    modifies m
    ensures m.tasks == old(m.tasks) + [t]
    ensures FirstIndex(old(m.tasks), t.id).None? ==> found == Some(t)
    ensures (forall u :: u in m.tasks ==> Storable(u)) ==> Load(m.saved, freshIds) == Ok(m.tasks)
  {
    ghost var before := m.tasks;
    m.AddTask(t);
    ghost var after := m.tasks;
    assert after == before + [t] && m.saved == Records(SaveTasks(after));
    FirstIndexAfterAppend(before, t);
    found := m.GetTask(t.id);
    if forall u :: u in after ==> Storable(u) {
      SaveLoadRoundTrip(after, freshIds);
    }
  }

  /** `update_task(id, status=...)` on a present id is visible through `get_task`. */
  method UpdateThenGet(m: TaskManager, id: string, status: string) returns (updated: bool, found: Option<Task>)
    modifies m
    ensures updated <==> FirstIndex(old(m.tasks), id).Some?
    ensures updated ==> found.Some? && found.value.status == status
    ensures !updated ==> m.saved == old(m.saved)
  {
    ghost var before := m.tasks;
    updated := m.UpdateTask(id, Patch(None, None, None, None, None, Some(status), None, None));
    if updated {
      var k := FirstIndex(before, id).value;
      FirstIndexAfterReplace(before, k, m.tasks[k]);
    }
    found := m.GetTask(id);
  }

  /** After `delete_task(id)`, `get_task(id)` finds nothing, and the saved file holds no such task. */
  method DeleteThenGet(m: TaskManager, id: string) returns (found: Option<Task>)
    modifies m
    ensures found.None?
    ensures m.saved.Records?
    ensures forall j :: 0 <= j < |m.saved.records| ==> Id in m.saved.records[j] && m.saved.records[j][Id] != id
  {
    m.DeleteTask(id);
    found := m.GetTask(id);
  }
}
