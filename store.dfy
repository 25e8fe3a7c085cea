/**
 * The task collection and the settings record with the operations of
 * api/app.py that change or read them: create, stop, lookup, set_mode; and
 * the two drivers of the engine from api/worker.py, one cycle of a task's
 * background loop and the sweep. Persistence is the store object's state:
 * every operation reads `tasks`/`settings` and assigns them back.
 */
module Store {
  import opened Wrappers
  import opened Json
  import opened PyText
  import opened VisitApi
  import opened Engine
  import opened Sweep

  datatype Error = InvalidArgument | NotFound

  const AddReportsName: string := "add_reports"
  const AddIncreaseName: string := "add_increase"

  /** The position of the first task with id `id`, as `next(x for x in tasks if x["id"] == id)` finds it. */
  function FindIndex(ts: seq<Task>, id: string): (r: Option<nat>)
    ensures r.Some? ==> (r.value < |ts| && ts[r.value].id == id
                         && forall j :: 0 <= j < r.value ==> ts[j].id != id)
    ensures r.None? ==> forall j :: 0 <= j < |ts| ==> ts[j].id != id
    decreases |ts|
  {
    if ts == [] then None
    else if ts[0].id == id then Some(0)
    else match FindIndex(ts[1..], id)
      case Some(k) => Some(k + 1)
      case None => None
  }

  /** `find_task_by_id`: the first task with that id, or `None`. */
  function FindTask(ts: seq<Task>, id: string): (r: Option<Task>)
    ensures r.None? <==> forall j :: 0 <= j < |ts| ==> ts[j].id != id
    ensures r.Some? ==> exists i :: 0 <= i < |ts| && ts[i] == r.value && r.value.id == id
                                    && forall j :: 0 <= j < i ==> ts[j].id != id
  {
    match FindIndex(ts, id)
    case Some(i) => Some(ts[i])
    case None => None
  }

  /** `int(form["target"] or 0)`: a missing or empty field is 0, and so is one `int()` rejects. */
  function TargetOf(field: Option<string>): (n: int)
    ensures field.None? || field == Some("") ==> n == 0
    ensures field.Some? && ParseInt(field.value).Some? ==> n == ParseInt(field.value).value
    ensures field.Some? && ParseInt(field.value).None? ==> n == 0
  {
    match field
    case None => 0
    case Some(s) => if s == "" then 0 else ParseInt(s).GetOr(0)
  }

  /**
   * The checks of `api_task_create`: the uid with surrounding white space
   * removed must be non-empty and the target a positive integer.
   */
  function ValidateCreate(uidField: Option<string>, targetField: Option<string>): (r: Result<(string, int), Error>)
    ensures r.Success? <==> Strip(uidField.GetOr("")) != "" && TargetOf(targetField) > 0
    ensures r.Success? ==> r.value == (Strip(uidField.GetOr("")), TargetOf(targetField))
    ensures r.Failure? ==> r.error == InvalidArgument
  {
    var uid := Strip(uidField.GetOr(""));
    var target := TargetOf(targetField);
    if uid == "" || target <= 0 then Failure(InvalidArgument) else Success((uid, target))
  }

  /** A freshly created task: running, nothing accumulated, nothing observed, no log, no timestamps. */
  function NewTask(id: string, uid: string, target: int): (t: Task)
    ensures t.id == id && t.uid == uid && t.target == target
    ensures t.status == Running && t.accumulated == 0 && t.lastSuccessful.None? && t.logs == []
    ensures t.createdAt.None? && t.updatedAt.None? && t.completedAt.None?
  {
    Task(id, uid, target, 0, Running, None, [], None, None, None)
  }

  /** The collection after `stop`: the first task with the id is marked `stopped`, whatever its status was. */
  function StopTasks(ts: seq<Task>, id: string): (r: seq<Task>)
    ensures |r| == |ts|
    ensures FindIndex(ts, id).None? ==> r == ts
    ensures FindIndex(ts, id).Some? ==>
      var i := FindIndex(ts, id).value;
      r[i] == ts[i].(status := Stopped) && forall j :: 0 <= j < |ts| && j != i ==> r[j] == ts[j]
  {
    match FindIndex(ts, id)
    case Some(i) => ts[i := ts[i].(status := Stopped)]
    case None => ts
  }

  /** Stopping twice is stopping once. */
  lemma StopIdempotent(ts: seq<Task>, id: string)
    ensures StopTasks(StopTasks(ts, id), id) == StopTasks(ts, id)
  {
    var once := StopTasks(ts, id);
    if FindIndex(ts, id).Some? {
      var i := FindIndex(ts, id).value;
      assert FindIndex(once, id) == Some(i);
    }
  }

  /** `stop` overrides even `completed`: a completed task comes back `stopped`, its total unchanged. */
  lemma StopOverridesCompleted(ts: seq<Task>, id: string)
    requires FindTask(ts, id).Some? && FindTask(ts, id).value.status == Completed
    ensures FindTask(StopTasks(ts, id), id).Some?
    ensures FindTask(StopTasks(ts, id), id).value.status == Stopped
    ensures FindTask(StopTasks(ts, id), id).value.accumulated == FindTask(ts, id).value.accumulated
  {
    var i := FindIndex(ts, id).value;
    assert FindIndex(StopTasks(ts, id), id) == Some(i);
  }

  /** The values `set_mode` accepts. */
  predicate IsModeName(mode: Option<string>): (b: bool)
    ensures b ==> mode.Some? && (ModeOf(JString(mode.value)) == AddReports <==> mode.value == AddReportsName)
    ensures mode.Some? && mode.value != AddReportsName && mode.value != AddIncreaseName ==> !b
    ensures mode == Some(AddReportsName) || mode == Some(AddIncreaseName) ==> b
    ensures mode.None? ==> !b
  {
    mode == Some(AddReportsName) || mode == Some(AddIncreaseName)
  }

  /** The mode a recognised mode name selects, as every later poll will read it. */
  lemma ModeNameSelects(settings: map<string, Json>, default: string, name: string)
    requires IsModeName(Some(name))
    ensures var m := ModeOf(EffectiveMode(settings[AccumModeKey := JString(name)], default));
      (m == AddReports <==> name == AddReportsName) && (m == AddIncrease <==> name == AddIncreaseName)
  {
  }

  /** The tasks of a well-formed collection satisfy the task invariant and have distinct ids. */
  ghost predicate CollectionInvariant(ts: seq<Task>) {
    (forall i :: 0 <= i < |ts| ==> TaskInvariant(ts[i]))
    && (forall i, j :: 0 <= i < j < |ts| ==> ts[i].id != ts[j].id)
  }

  /** Appending a valid task under an unused id keeps the collection well formed. */
  lemma AppendKeepsInvariant(ts: seq<Task>, t: Task)
    requires CollectionInvariant(ts) && TaskInvariant(t)
    requires forall j :: 0 <= j < |ts| ==> ts[j].id != t.id
    ensures CollectionInvariant(ts + [t])
  {
    var r := ts + [t];
    forall i | 0 <= i < |r| ensures TaskInvariant(r[i]) {
      if i < |ts| { assert r[i] == ts[i]; }
    }
  }

  class TaskStore {
    /** The persisted task list (`tasks.json`). */
    var tasks: seq<Task>
    /** The persisted settings document (`settings.json`). */
    var settings: map<string, Json>
    /** The configured default mode, used when the settings carry none. */
    const defaultMode: string

    ghost predicate Valid()
      reads this
    {
      CollectionInvariant(tasks)
    }

    /** The store as `ensure_files` first creates it: no tasks, the default mode in the settings. */
    constructor (defaultMode: string)
      ensures Valid()
      ensures tasks == [] && settings == map[AccumModeKey := JString(defaultMode)]
      ensures this.defaultMode == defaultMode
    {
      this.defaultMode := defaultMode;
      tasks := [];
      settings := map[AccumModeKey := JString(defaultMode)];
    }

    /**
     * `api_task_create`: validate, then append one new running task under
     * the fresh id `id`. A rejected request writes nothing.
     */
    method Create(id: string, uidField: Option<string>, targetField: Option<string>)
      returns (r: Result<string, Error>)
      requires Valid()
      requires forall j :: 0 <= j < |tasks| ==> tasks[j].id != id
      modifies this`tasks
      ensures Valid()
      ensures r.Success? <==> ValidateCreate(uidField, targetField).Success?
      ensures r.Failure? ==> r.error == InvalidArgument && tasks == old(tasks)
      ensures r.Success? ==>
        var v := ValidateCreate(uidField, targetField).value;
        r.value == id && tasks == old(tasks) + [NewTask(id, v.0, v.1)]
    {
      var checked := ValidateCreate(uidField, targetField);
      if checked.Failure? {
        return Failure(InvalidArgument);
      }
      var (uid, target) := checked.value;
      AppendKeepsInvariant(tasks, NewTask(id, uid, target));
      tasks := tasks + [NewTask(id, uid, target)];
      r := Success(id);
    }

    /** `api_task_stop`: an unknown id is `NotFound` and writes nothing; otherwise the task is `stopped`. */
    method Stop(id: string) returns (r: Result<(), Error>)
      requires Valid()
      modifies this`tasks
      ensures Valid()
      ensures r.Failure? <==> FindIndex(old(tasks), id).None?
      ensures r.Failure? ==> r.error == NotFound
      ensures tasks == StopTasks(old(tasks), id)
    {
      var i := FindIndex(tasks, id);
      if i.None? {
        return Failure(NotFound);
      }
      var k := i.value;
      tasks := tasks[k := tasks[k].(status := Stopped)];
      r := Success(());
    }

    /** `api_task_get`: the current snapshot of the task, or `NotFound`. */
    method Get(id: string) returns (r: Result<Task, Error>)
      ensures r.Failure? <==> forall j :: 0 <= j < |tasks| ==> tasks[j].id != id
      ensures r.Failure? ==> r.error == NotFound
      ensures r.Success? ==> exists i :: 0 <= i < |tasks| && tasks[i] == r.value && r.value.id == id
                                        && forall j :: 0 <= j < i ==> tasks[j].id != id
    {
      match FindTask(tasks, id)
      case Some(t) => r := Success(t);
      case None => r := Failure(NotFound);
    }

    /** `api_admin_set_mode`: only the two mode names are accepted; nothing but `accum_mode` changes. */
    method SetMode(mode: Option<string>) returns (r: Result<string, Error>)
      modifies this`settings
      ensures r.Success? <==> IsModeName(mode)
      ensures r.Failure? ==> r.error == InvalidArgument && settings == old(settings)
      ensures r.Success? ==> r.value == mode.value && settings == old(settings)[AccumModeKey := JString(mode.value)]
    {
      if !IsModeName(mode) {
        return Failure(InvalidArgument);
      }
      settings := settings[AccumModeKey := JString(mode.value)];
      r := Success(mode.value);
    }

    /**
     * One cycle of `task_worker`: find the task; if it is gone or no
     * longer running the loop ends (`false`) without writing; otherwise it
     * is polled once under the current mode and written back (`true`).
     */
    method WorkerCycle(id: string, p: Poll) returns (proceed: bool)
      requires Valid()
      modifies this`tasks
      ensures Valid()
      ensures proceed <==> FindTask(old(tasks), id).Some? && FindTask(old(tasks), id).value.status == Running
      ensures !proceed ==> tasks == old(tasks)
      ensures proceed ==>
        var i := FindIndex(old(tasks), id).value;
        var mode := ModeOf(EffectiveMode(settings, defaultMode));
        tasks == old(tasks)[i := Step(old(tasks)[i], mode, CallVisitApi(p.response), p.clock)]
    {
      var found := FindIndex(tasks, id);
      if found.None? || tasks[found.value].status != Running {
        return false;
      }
      var i := found.value;
      var res := CallVisitApi(p.response);
      var mode := ModeOf(EffectiveMode(settings, defaultMode));
      PollKeepsInvariant(tasks[i], mode, p);
      tasks := tasks[i := Step(tasks[i], mode, res, p.clock)];
      proceed := true;
    }

    /** `run_one_iteration_for_all`: one sweep under the current mode, written back in one assignment. */
    method RunOneIterationForAll(polls: seq<Poll>) returns (report: SweepReport)
      requires Valid()
      requires |polls| == |tasks|
      modifies this`tasks
      ensures Valid()
      ensures report.accumMode == EffectiveMode(settings, defaultMode)
      ensures tasks == SweptTasks(old(tasks), ModeOf(report.accumMode), polls)
      ensures report.processed == |RunningIndices(old(tasks))|
      ensures report.results == SweepReports(old(tasks), ModeOf(report.accumMode), polls)
    {
      var accumMode := EffectiveMode(settings, defaultMode);
      var mode := ModeOf(accumMode);
      var updated, processed, results := SweepTasks(tasks, mode, polls);
      SweepKeepsInvariant(tasks, mode, polls);
      tasks := updated;
      report := SweepReport(processed, results, accumMode);
    }
  }
}
