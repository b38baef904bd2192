/**
 * core/file_handler.py: saving the whole task list as a JSON array of records,
 * and loading it back. The file itself is a parameter: what `open` and
 * `json.load` found is given as a `StoredFile`.
 */
module FileHandler {
  import opened Results
  import opened Tasks

  /** `save_tasks_to_file`: the records written, one per task, in list order. */
  function SaveTasks(tasks: seq<Task>): (records: seq<Record>)
    ensures |records| == |tasks|
    ensures forall i :: 0 <= i < |tasks| ==> records[i] == ToRecord(tasks[i])
  {
    if tasks == [] then [] else [ToRecord(tasks[0])] + SaveTasks(tasks[1..])
  }

  /** What reading the file produced: no file, text that is not JSON, or a JSON array of records. */
  datatype StoredFile = NotFound | Malformed | Records(records: seq<Record>)

  /**
   * `[Task.from_dict(data) for data in records[i..]]`. `freshIds(j)` is the id
   * drawn for record `j` if its id is empty; the first record that fails
   * raises, and the exception leaves `load_tasks_from_file` uncaught.
   */
  function DecodeFrom(records: seq<Record>, i: nat, freshIds: nat -> string): (r: Result<seq<Task>, Error>)
    requires i <= |records|
    ensures r.Ok? ==> |r.value| == |records| - i
    ensures r.Ok? ==> forall j :: 0 <= j < |r.value| ==> DecodesTo(records[i + j], freshIds(i + j), r.value[j])
    ensures r.Ok? ==> forall t :: t in r.value ==> t.priority in ValidPriorities
    ensures r.Err? ==> exists j :: i <= j < |records| && FirstFailure(records, i, j, freshIds, r.error)
    ensures (exists j :: i <= j < |records| && FromRecord(records[j], freshIds(j)).Err?) ==> r.Err?
    decreases |records| - i
  {
    if i == |records| then Ok([])
    else
      match FromRecord(records[i], freshIds(i))
      case Err(e) =>
        assert FirstFailure(records, i, i, freshIds, e);
        Err(e)
      case Ok(t) =>
        match DecodeFrom(records, i + 1, freshIds)
        case Err(e) =>
          FailureAfter(records, i, i + 1, freshIds, e);
          Err(e)
        case Ok(rest) =>
          DecodedCons(records, i, freshIds, t, rest);
          DecodedAll(records, i, freshIds, [t] + rest);
          Ok([t] + rest)
  }

  /** A failure after a record that decodes is the first failure from that record on. */
  lemma FailureAfter(records: seq<Record>, i: nat, next: nat, freshIds: nat -> string, e: Error)
    requires i < |records| && FromRecord(records[i], freshIds(i)).Ok? && next == i + 1
    requires exists j :: next <= j < |records| && FirstFailure(records, next, j, freshIds, e)
    ensures exists j :: i <= j < |records| && FirstFailure(records, i, j, freshIds, e)
  {
    var j :| next <= j < |records| && FirstFailure(records, next, j, freshIds, e);
    forall k | i <= k < j ensures FromRecord(records[k], freshIds(k)).Ok? {
      if k != i {
        assert next <= k < j;
      }
    }
    assert FirstFailure(records, i, j, freshIds, e);
  }

  /** A decoded record followed by the decoded rest: task `j` comes from record `i + j`. */
  lemma DecodedCons(records: seq<Record>, i: nat, freshIds: nat -> string, t: Task, rest: seq<Task>)
    requires i < |records| && DecodesTo(records[i], freshIds(i), t)
    requires |rest| == |records| - i - 1
    requires forall j :: 0 <= j < |rest| ==> DecodesTo(records[i + 1 + j], freshIds(i + 1 + j), rest[j])
    ensures forall j :: 0 <= j < |rest| + 1 ==> DecodesTo(records[i + j], freshIds(i + j), ([t] + rest)[j])
  {
    var r := [t] + rest;
    forall j | 0 <= j < |r| ensures DecodesTo(records[i + j], freshIds(i + j), r[j]) {
      if j > 0 {
        assert r[j] == rest[j - 1];
        assert DecodesTo(records[i + 1 + (j - 1)], freshIds(i + 1 + (j - 1)), rest[j - 1]);
      }
    }
  }

  /** When the tasks from `i` on come from the records from `i` on, every such record decodes. */
  lemma DecodedAll(records: seq<Record>, i: nat, freshIds: nat -> string, r: seq<Task>)
    requires i <= |records| && |r| == |records| - i
    requires forall j :: 0 <= j < |r| ==> DecodesTo(records[i + j], freshIds(i + j), r[j])
    ensures forall j :: i <= j < |records| ==> FromRecord(records[j], freshIds(j)).Ok?
  {
    forall j | i <= j < |records| ensures FromRecord(records[j], freshIds(j)).Ok? {
      assert DecodesTo(records[i + (j - i)], freshIds(i + (j - i)), r[j - i]);
    }
  }

  /** Record `j` is the first from `i` on that fails to decode, and it raises `e`. */
  predicate FirstFailure(records: seq<Record>, i: nat, j: nat, freshIds: nat -> string, e: Error)
    requires i <= j < |records|
  {
    && FromRecord(records[j], freshIds(j)) == Err(e)
    && forall k :: i <= k < j ==> FromRecord(records[k], freshIds(k)).Ok?
  }

  /**
   * `load_tasks_from_file` as written: the FileNotFoundError handler prints a
   * message and falls off the end, so a missing file yields None rather than
   * a list; a JSONDecodeError yields the empty list.
   */
  function LoadAsWritten(file: StoredFile, freshIds: nat -> string): (r: Result<Option<seq<Task>>, Error>)
    ensures file.NotFound? ==> r == Ok(None)
    ensures file.Malformed? ==> r == Ok(Some([]))
    ensures file.Records? ==> (r.Ok? <==> DecodeFrom(file.records, 0, freshIds).Ok?)
    ensures file.Records? && r.Ok? ==> r.value == Some(DecodeFrom(file.records, 0, freshIds).value)
    ensures file.Records? && r.Err? ==> r.error == DecodeFrom(file.records, 0, freshIds).error
  {
    match file
    case NotFound => Ok(None)
    case Malformed => Ok(Some([]))
    case Records(rs) =>
      match DecodeFrom(rs, 0, freshIds)
      case Err(e) => Err(e)
      case Ok(ts) => Ok(Some(ts))
  }

  /** The missing file does not give the empty list that the handler's message announces. */
  lemma LoadMissingGivesNone(freshIds: nat -> string)
    ensures LoadAsWritten(NotFound, freshIds) == Ok(None)
    ensures LoadAsWritten(NotFound, freshIds) != LoadAsWritten(Malformed, freshIds)
  {
  }

  /**
   * `load_tasks_from_file` with `return []` in the FileNotFoundError handler,
   * as its message says: a missing or unreadable file both give the empty list.
   */
  function Load(file: StoredFile, freshIds: nat -> string): (r: Result<seq<Task>, Error>)
    ensures !file.Records? ==> r == Ok([])
    ensures file.Records? ==> r == DecodeFrom(file.records, 0, freshIds)
    ensures r.Ok? ==> forall t :: t in r.value ==> t.priority in ValidPriorities
  {
    match file
    case NotFound => Ok([])
    case Malformed => Ok([])
    case Records(rs) => DecodeFrom(rs, 0, freshIds)
  }

  /** A task that survives a save and load unchanged: a non-empty id and a valid priority. */
  predicate Storable(t: Task) {
    t.id != "" && t.priority in ValidPriorities
  }

  /**
   * Saving and loading back reproduces the list, for tasks with non-empty ids
   * and valid priorities.
   */
  lemma SaveLoadRoundTrip(tasks: seq<Task>, freshIds: nat -> string)
    requires forall t :: t in tasks ==> Storable(t)
    ensures Load(Records(SaveTasks(tasks)), freshIds) == Ok(tasks)
  {
    var records := SaveTasks(tasks);
    forall j | 0 <= j < |records|
      ensures DecodesTo(records[j], freshIds(j), tasks[j])
    {
      assert tasks[j] in tasks;
      RecordRoundTrip(tasks[j], freshIds(j));
    }
    DecodeEach(records, tasks, 0, freshIds);
  }

  /** Record `r` decodes to `t` when `id` is the id drawn for it. */
  predicate DecodesTo(r: Record, id: string, t: Task) {
    FromRecord(r, id) == Ok(t)
  }

  /** One step of the decoding loop: a decoded record followed by the decoded rest. */
  lemma DecodeStep(records: seq<Record>, i: nat, freshIds: nat -> string, t: Task, rest: seq<Task>)
    requires i < |records|
    requires DecodesTo(records[i], freshIds(i), t)
    requires DecodeFrom(records, i + 1, freshIds) == Ok(rest)
    ensures DecodeFrom(records, i, freshIds) == Ok([t] + rest)
  {
  }

  lemma SplitFirst<T>(s: seq<T>, i: nat)
    requires i < |s|
    ensures s[i..] == [s[i]] + s[i + 1..]
  {
  }

  /** Decoding a list whose records each decode on their own gives the list of their tasks. */
  lemma {:induction false} DecodeEach(records: seq<Record>, tasks: seq<Task>, i: nat, freshIds: nat -> string)
    requires i <= |records| == |tasks|
    requires forall j :: i <= j < |records| ==> DecodesTo(records[j], freshIds(j), tasks[j])
    ensures DecodeFrom(records, i, freshIds) == Ok(tasks[i..])
    decreases |records| - i
  {
    if i < |records| {
      var rest := tasks[i + 1..];
      assert DecodeFrom(records, i + 1, freshIds) == Ok(rest) by {
        DecodeEach(records, tasks, i + 1, freshIds);
      }
      assert DecodeFrom(records, i, freshIds) == Ok([tasks[i]] + rest) by {
        DecodeStep(records, i, freshIds, tasks[i], rest);
      }
      assert tasks[i..] == [tasks[i]] + rest by {
        SplitFirst(tasks, i);
      }
    } else {
      assert tasks[i..] == [];
    }
  }
}
