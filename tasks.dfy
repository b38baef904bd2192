/**
 * The Task entity of core/task.py: construction with its validation and
 * defaults, the two status setters, the overdue query, and the eight-field
 * record codec `to_dict` / `from_dict`.
 */
module Tasks {
  import opened Results
  import opened DateTimes

  const ValidPriorities: seq<string> := ["Low", "Medium", "High"]
  const DefaultPriority := "Medium"

  const Completed := "COMPLETED"
  const InProgress := "IN_PROGRESS"

  /**
   * A task. `status` and `priority` are free text: the constructor checks the
   * priority, but the manager's update path stores any value without checks.
   */
  datatype Task = Task(
    id: string,
    title: string,
    description: string,
    deadline: DateTime,
    category: string,
    status: string,
    priority: string,
    createdDate: DateTime)

  /** The exceptions the constructor and `from_dict` raise. */
  datatype Error =
    | InvalidPriority(given: string)   // ValueError from the priority check
    | InvalidIsoFormat(text: string)   // ValueError from datetime.fromisoformat
    | MissingKey(key: Key)             // KeyError from a record lookup

  /** A `deadline` or `created_date` argument: a datetime, or ISO-8601 text to be parsed. */
  datatype DateArg = Stamp(stamp: DateTime) | IsoText(text: string)

  /** Python truthiness of an optional id: None and "" are falsy. */
  predicate IsTruthy(id: Option<string>) {
    id.Some? && id.value != ""
  }

  /** `datetime.fromisoformat` applied to text, the value itself otherwise. */
  function ResolveDate(a: DateArg): Result<DateTime, Error> {
    match a
    case Stamp(d) => Ok(d)
    case IsoText(s) =>
      match FromIsoFormat(s)
      case Some(d) => Ok(d)
      case None => Err(InvalidIsoFormat(s))
  }

  /**
   * `Task(title, description, deadline, category, status, priority, created_date, task_id)`.
   * `priority` None means the argument was omitted; `createdDate` None means
   * `created_date=None`; `freshId` is the `str(uuid.uuid4())` drawn when the
   * id is falsy and `now` is `datetime.now()`. The checks run in the order of
   * the source: the deadline text is parsed, then the priority checked, then
   * the creation date parsed.
   */
  function NewTask(title: string, description: string, deadline: DateArg, category: string,
                   status: string, priority: Option<string>, createdDate: Option<DateArg>,
                   taskId: Option<string>, freshId: string, now: DateTime): (r: Result<Task, Error>)
    // construction fails exactly on a bad deadline text, a bad priority or a bad creation-date text
    ensures r.Ok? <==>
      && ResolveDate(deadline).Ok?
      && (priority.None? || priority.value in ValidPriorities)
      && (createdDate.None? || ResolveDate(createdDate.value).Ok?)
    // a priority outside the fixed set is refused once the deadline has been read
    ensures ResolveDate(deadline).Ok? && priority.Some? && priority.value !in ValidPriorities
      ==> r == Err(InvalidPriority(priority.value))
    ensures r.Ok? ==> r.value.priority in ValidPriorities
    ensures r.Ok? ==> r.value.priority == if priority.Some? then priority.value else DefaultPriority
    // a truthy id is kept verbatim; otherwise the fresh one is used
    ensures r.Ok? ==> r.value.id == if IsTruthy(taskId) then taskId.value else freshId
    // text fields and the status are stored as given, without validation
    ensures r.Ok? ==> && r.value.title == title && r.value.description == description
                      && r.value.category == category && r.value.status == status
    ensures r.Ok? ==> Ok(r.value.deadline) == ResolveDate(deadline)
    ensures r.Ok? ==> r.value.createdDate == if createdDate.Some? then ResolveDate(createdDate.value).value else now
  {
    var id := if IsTruthy(taskId) then taskId.value else freshId;
    match ResolveDate(deadline)
    case Err(e) => Err(e)
    case Ok(due) =>
      var p := if priority.Some? then priority.value else DefaultPriority;
      if p !in ValidPriorities then Err(InvalidPriority(p))
      else
        var created := if createdDate.Some? then ResolveDate(createdDate.value) else Ok(now);
        match created
        case Err(e) => Err(e)
        case Ok(c) => Ok(Task(id, title, description, due, category, status, p, c))
  }

  /** `mark_completed`: the status becomes COMPLETED whatever it was; nothing else changes. */
  function MarkCompleted(t: Task): (r: Task)
    ensures r.status == Completed
    ensures r.(status := t.status) == t
  {
    t.(status := Completed)
  }

  /** `mark_in_progress`: the status becomes IN_PROGRESS whatever it was; nothing else changes. */
  function MarkInProgress(t: Task): (r: Task)
    ensures r.status == InProgress
    ensures r.(status := t.status) == t
  {
    t.(status := InProgress)
  }

  /** Both setters are idempotent. */
  lemma MarkIdempotent(t: Task)
    ensures MarkCompleted(MarkCompleted(t)) == MarkCompleted(t)
    ensures MarkInProgress(MarkInProgress(t)) == MarkInProgress(t)
  {
  }

  /** `is_overdue`, with the clock reading `now` as a parameter: `now > deadline`. */
  function IsOverdue(t: Task, now: DateTime): (r: bool)
    ensures r <==> Ordinal(t.deadline) < Ordinal(now)
    ensures t.deadline == now ==> !r
  {
    OrdinalOrder(t.deadline, now);
    Before(t.deadline, now)
  }

  // ---------------------------------------------------------------------------
  // The record codec

  /** The eight keys of a task record. */
  datatype Key = Id | Title | Description | Deadline | Category | Status | Priority | CreatedDate

  /** A task as the dictionary `to_dict` builds: every value is text. */
  type Record = map<Key, string>

  /** The record has all eight keys. */
  predicate HasAllKeys(m: Record) {
    Id in m && Title in m && Description in m && Deadline in m
    && Category in m && Status in m && Priority in m && CreatedDate in m
  }

  /** The keys in the order `from_dict` looks them up. */
  const RecordKeys: seq<Key> :=
    [Id, Title, Description, Deadline, Category, Status, Priority, CreatedDate]

  /** `to_dict`: all eight keys, both timestamps written by `isoformat`. */
  function ToRecord(t: Task): (r: Record)
    ensures HasAllKeys(r)
    ensures r[Id] == t.id && r[Title] == t.title && r[Description] == t.description
    ensures r[Category] == t.category && r[Status] == t.status && r[Priority] == t.priority
    ensures r[Deadline] == IsoFormat(t.deadline) && r[CreatedDate] == IsoFormat(t.createdDate)
  {
    map[
      Id := t.id,
      Title := t.title,
      Description := t.description,
      Deadline := IsoFormat(t.deadline),
      Category := t.category,
      Status := t.status,
      Priority := t.priority,
      CreatedDate := IsoFormat(t.createdDate)]
  }

  /** The first key, in lookup order, that `m` lacks. */
  function MissingFrom(m: Record): (r: Option<Key>)
    ensures r.None? <==> HasAllKeys(m)
    ensures r.Some? ==> r.value !in m && forall i :: 0 <= i < |RecordKeys| && RecordKeys[i] == r.value ==> forall j :: 0 <= j < i ==> RecordKeys[j] in m
  {
    if Id !in m then Some(Id)
    else if Title !in m then Some(Title)
    else if Description !in m then Some(Description)
    else if Deadline !in m then Some(Deadline)
    else if Category !in m then Some(Category)
    else if Status !in m then Some(Status)
    else if Priority !in m then Some(Priority)
    else if CreatedDate !in m then Some(CreatedDate)
    else None
  }

  /**
   * `from_dict`: every key is looked up first (KeyError on the first missing one),
   * then the constructor runs with both timestamps given as text. The clock
   * is never read, because `created_date` is always supplied.
   */
  function FromRecord(m: Record, freshId: string): (r: Result<Task, Error>)
    ensures MissingFrom(m).Some? ==> r == Err(MissingKey(MissingFrom(m).value))
    ensures r.Ok? ==> r.value.priority in ValidPriorities
    ensures r.Ok? ==> r.value.id == if m[Id] != "" then m[Id] else freshId
  {
    match MissingFrom(m)
    case Some(k) => Err(MissingKey(k))
    case None =>
      NewTask(m[Title], m[Description], IsoText(m[Deadline]), m[Category], m[Status],
              Some(m[Priority]), Some(IsoText(m[CreatedDate])), Some(m[Id]),
              freshId, DateTimeFields(1, 1, 1, 0, 0, 0, 0))
  }

  /** `from_dict(t.to_dict())` gives back `t` when its id is non-empty and its priority valid. */
  lemma RecordRoundTrip(t: Task, freshId: string)
    requires t.id != ""
    requires t.priority in ValidPriorities
    ensures FromRecord(ToRecord(t), freshId) == Ok(t)
  {
    IsoRoundTrip(t.deadline);
    IsoRoundTrip(t.createdDate);
  }

  /** A task holding an invalid priority (set through the update path) cannot be read back. */
  lemma RecordRejectsInvalidPriority(t: Task, freshId: string)
    requires t.priority !in ValidPriorities
    ensures FromRecord(ToRecord(t), freshId) == Err(InvalidPriority(t.priority))
  {
    IsoRoundTrip(t.deadline);
    IsoRoundTrip(t.createdDate);
  }

  /** A task with an empty id comes back with a freshly drawn id instead. */
  lemma RecordReplacesEmptyId(t: Task, freshId: string)
    requires t.id == ""
    requires t.priority in ValidPriorities
    ensures FromRecord(ToRecord(t), freshId) == Ok(t.(id := freshId))
  {
    IsoRoundTrip(t.deadline);
    IsoRoundTrip(t.createdDate);
  }
}
