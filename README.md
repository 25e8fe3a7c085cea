# Visit tracker: task accumulation engine

A model of the core of a small web service that tracks progress of tasks
toward numeric targets. Each task names an external user id; the service
polls a remote "visit count" provider for that id and adds what it reports
to the task's `accumulated` total, under one of two accumulation modes:

- `add_reports`: every report is added in full;
- `add_increase`: the provider's value is read as a running counter and only
  its rise since the previous poll is added (the first poll adds the value
  itself; a drop adds 0).

A task is `running` until its total reaches its target (`completed`) or it
is stopped (`stopped`). Tasks are driven either by a per-task background
loop (one cycle modelled by `Store.TaskStore.WorkerCycle`) or by an
externally triggered sweep over all running tasks
(`Store.TaskStore.RunOneIterationForAll`, whose loop is `Sweep.SweepTasks`).

Modules, leaves first:

- `Wrappers`: `Option` and `Result`.
- `PyText`: Python's `str.strip()`, `int()` on a string and `str()` on an integer.
- `Json`: the loosely typed value `json.loads` produces, and `int()` on it.
- `VisitApi`: how a provider response becomes the observed counter value.
- `Engine`: the task record, the increment rule, one poll step, and lemmas about a task's life under many polls.
- `Sweep`: the sweep over the task list and its report.
- `Store`: the task collection and settings as a class, with create, stop, get, set-mode and the two drivers.

Inputs the model does not compute: the provider's answer and the result of
`json.loads` (`VisitApi.HttpOutcome`), the clock (`Engine.Clock`: the code
reads the clock separately for the log entry, `updated_at` and
`completed_at`, so the three may differ), the fresh task id (a parameter of
`Create`, required to be unused), and the configured default mode (the
store's `defaultMode`).

Where the prose design and the code differ, the model follows the code:

- A negative observed value is not clamped to 0, so under `add_reports`
  `accumulated` can decrease (`Engine.NegativeReportLowersTotal`); the
  non-decreasing property holds only under the conditions of
  `Engine.AccumulatedNonDecreasing`.
- `stop` sets `stopped` even on a `completed` task (`Store.StopOverridesCompleted`).

## Model

| member | source | states |
|---|---|---|
| `PyText.TrimLeft` | api/app.py:50 | the left-stripped text is a suffix of the input, does not start with white space, and every dropped character is white space |
| `PyText.TrimRight` | api/app.py:50 | the right-stripped text is a prefix of the input, does not end with white space, and every dropped character is white space |
| `PyText.Strip` | api/app.py:50 | `strip()` keeps the middle of the text: leading white space is dropped to leave a suffix, trailing white space is dropped from that to leave a prefix of it, only white space is dropped, and the result neither starts nor ends with white space |
| `PyText.StripIdempotent` | api/app.py:50 | stripping an already stripped uid changes nothing |
| `PyText.ParseShow` | api/worker.py:25-29 | `int(str(n)) == n` for every integer: a counter sent as a decimal string reads as its value |
| `PyText.ReadSigned` | api/app.py:52 | a stripped text reads as an integer exactly when it is a digit group (digits with single underscores between them) with at most one leading sign; the value is the digits' value, negated after `-` |
| `PyText.ParseInt` | api/app.py:52 | `int()` on a string fails on any character U+001C to U+001F, and otherwise reads the stripped text as a signed digit group |
| `PyText.ParseIgnoresSpace` | api/app.py:52 | the white space `int()` skips around a number (white space other than U+001C to U+001F) does not change what it reads |
| `PyText.SeparatorRejected` | api/app.py:52 | a U+001C before a number makes `int()` fail, although `strip()` would remove it |
| `Json.TruncDiv` | api/worker.py:27 | `int()` of a float rounds toward zero: the result times the divisor is within one divisor of the value, on the side of 0 |
| `Json.ToInt` | api/worker.py:25-29 | `int()` succeeds exactly on booleans, integers, finite floats and base-10 integer strings; an integer is itself, a boolean is 1 or 0, a string reads as `int()` on text reads it, and a float is truncated toward zero |
| `VisitApi.ResponseDocument` | api/worker.py:18-21 | the logged document is the parsed JSON, or `{"raw": body}` when the body is not JSON |
| `VisitApi.SuccessfulVisits` | api/worker.py:22-29 | outside an object or without the field the entry is null; otherwise it is the field coerced to an integer when `int()` accepts it, else the field unchanged, and `int()` of it equals `int()` of the field |
| `VisitApi.CallVisitApi` | api/worker.py:12-32 | a raised request is a failure carrying the error text; a received body yields the response document and its `SuccessfulVisits` entry |
| `VisitApi.Observed` | api/worker.py:122-126 | the observed value is 0 after a failed request and `int()` of the entry, or 0 when that raises or the entry is null |
| `VisitApi.ObservedIsReportedCount` | api/worker.py:50-56 | end to end, a poll observes the provider's field coerced once by `int()`, and 0 for a failed request, a non-JSON body, a non-object document, a missing field or an uncoercible value |
| `Engine.EffectiveMode` | api/worker.py:114 | the mode value is the stored `accum_mode` when present, else the configured default |
| `Engine.ModeOf` | api/worker.py:128 | `add_reports` is selected exactly by the string `"add_reports"`; every other value acts as `add_increase` |
| `Engine.ComputeAdd` | api/worker.py:128-135 | `add_reports` adds the observed value; `add_increase` adds it on the first poll and afterwards a non-negative amount that is either 0 or the rise since the last value, and at least that rise |
| `Engine.ApiOf` | api/worker.py:143 | the logged response is the document of a successful request, and null for a failed one |
| `Engine.EntryOf` | api/worker.py:139-144 | the appended log entry carries the log time, the observed value, the increment of the mode from the previous value, and the logged response |
| `Engine.Step` | api/worker.py:137-148 | one poll adds the increment, sets `last_successful` to the observed value, appends exactly one log entry leaving earlier ones unchanged, stamps `updated_at`, and completes the task exactly when the new total reaches the target, even when nothing was added; id, uid and target are unchanged |
| `Engine.PollTask` | api/worker.py:117-119 | a task that is not running is left as it is; a running one takes one step |
| `Engine.PollKeepsInvariant` | api/worker.py:70-82 | a poll keeps the task invariant: positive target, running below target, completed at or above it with `completed_at`, `last_successful` set iff the log is non-empty and equal to the last logged value |
| `Engine.Lifetime` | api/worker.py:40-86 | a task's life under a sequence of polls, each under the mode read for its own cycle, keeps its id, uid, target and creation time |
| `Engine.Observations` | api/worker.py:50-56 | the observed values of a sequence of polls, one per poll |
| `Engine.NotRunningIsTerminal` | api/worker.py:45-46 | a stopped or completed task is unchanged by any sequence of later polls, under any sequence of modes |
| `Engine.LifetimeKeepsInvariant` | api/worker.py:80-82 | the task invariant and the task's id and target hold for its whole life, whatever mode each poll runs under |
| `Engine.LifetimeLogs` | api/worker.py:72-77 | under any sequence of modes, the log is only appended to, at most one entry per poll, and exactly one per poll while the task is still running |
| `Engine.ReportsAddUp` | api/worker.py:61-62 | when every poll runs under `add_reports`, a task still running after a sequence of polls has gained exactly the sum of the observed values |
| `Engine.AccumulatedNonDecreasing` | api/worker.py:64-70 | `accumulated` never decreases when every poll either observes a non-negative value or runs under `add_increase` after a value has been seen; so it never decreases when all observed values are non-negative, whatever the modes, nor under `add_increase` once a value has been seen |
| `Engine.IncreaseTracksCounter` | api/worker.py:63-71 | when every poll runs under `add_increase`, with a counter that never goes back, `accumulated - last_successful` is constant, so a fresh task's total equals the latest counter value |
| `Engine.ExampleAddReports` | api/worker.py:128-129 | reports 5, 3, 10 under `add_reports` give 18 |
| `Engine.ExampleAddIncrease` | api/worker.py:130-138 | counter values 5, 12, 10 under `add_increase` give 12, with `last_successful` 10 |
| `Engine.ExampleCompletion` | api/worker.py:146-148 | a report equal to the target completes the task and sets `completed_at` |
| `Engine.NegativeReportLowersTotal` | api/worker.py:128-137 | a running task polled under `add_reports` with a report of -3 loses 3 from its total (no clamping) |
| `Sweep.RunningIndices` | api/worker.py:117-120 | the polled positions are exactly the running tasks' positions, in increasing order |
| `Sweep.SweptTasks` | api/worker.py:117-148 | after a sweep every task is its own poll result: running tasks stepped once, others untouched, length unchanged |
| `Sweep.ReportOf` | api/worker.py:149 | a report gives the task's id and uid, the amount its total rose by, and its new total and status |
| `Sweep.SweepReports` | api/worker.py:149 | the sweep's results hold one report per running task |
| `Sweep.ReportsFollowRunningTasks` | api/worker.py:149 | there is one report per running task, and the k-th report is on the k-th running task in list order |
| `Sweep.SweepTasks` | api/worker.py:115-150 | the loop's tasks, count and reports are those of the sweep: `processed` is the number of running tasks |
| `Sweep.SecondSweepAddsNothing` | api/worker.py:131-138 | two sweeps under `add_increase` with the same constant counter value: the second adds 0 to every task and changes no total or status |
| `Sweep.SweepKeepsInvariant` | api/worker.py:137-148 | a sweep keeps every task's invariant and id |
| `Store.FindIndex` | api/app.py:85 | the result is the first position holding the id, or none when no task has it |
| `Store.FindTask` | api/app.py:16-18 | lookup returns the first task with the id, or None exactly when no task has it |
| `Store.TargetOf` | api/app.py:51-54 | a missing, empty or non-integer target counts as 0; an integer string gives its value |
| `Store.ValidateCreate` | api/app.py:50-56 | a create request is accepted exactly when the stripped uid is non-empty and the target is positive; otherwise it is InvalidArgument |
| `Store.NewTask` | api/app.py:60-70 | a new task is running, with accumulated 0, no `last_successful`, an empty log and no timestamps |
| `Store.StopTasks` | api/app.py:84-89 | stop marks the first task with the id `stopped` and changes nothing else; an unknown id changes nothing |
| `Store.StopIdempotent` | api/app.py:88 | stopping twice gives the same collection as stopping once |
| `Store.StopOverridesCompleted` | api/app.py:88 | a completed task comes back stopped with its total unchanged |
| `Store.IsModeName` | api/app.py:129 | the two mode names are accepted and nothing else is, a missing value included; an accepted name selects `add_reports` exactly when it is `"add_reports"` |
| `Store.ModeNameSelects` | api/app.py:129-133 | after setting a recognised mode name, polls use the mode it names |
| `Store.AppendKeepsInvariant` | api/app.py:71 | appending a valid task under an unused id keeps every task valid and the ids distinct |
| `Store.TaskStore.constructor` | api/storage.py:8-16 | the store starts with no tasks and the default mode in its settings |
| `Store.TaskStore.Create` | api/app.py:50-72 | an accepted request appends exactly one new task under the fresh id and returns the id; a rejected one writes nothing; the collection stays valid |
| `Store.TaskStore.Stop` | api/app.py:84-90 | NotFound exactly for an unknown id, with nothing written; otherwise the collection becomes the stopped collection |
| `Store.TaskStore.Get` | api/app.py:92-97 | NotFound exactly when no task has the id; otherwise the first task with it |
| `Store.TaskStore.SetMode` | api/app.py:128-134 | any value other than the two mode names is InvalidArgument with nothing written; otherwise only `accum_mode` changes |
| `Store.TaskStore.WorkerCycle` | api/worker.py:41-84 | a gone or non-running task ends the loop with nothing written; otherwise that task alone takes one step under the current mode |
| `Store.TaskStore.RunOneIterationForAll` | api/worker.py:111-151 | the collection becomes the swept collection under the current mode, with the count and reports of the sweep and the mode value used; the collection stays valid |

## Left out

- Persistence (api/storage.py): files, the temporary-file replace, the lock and the fallback on an unreadable file. The store object's fields stand for the two documents, and every operation reads and assigns them whole.
- The HTTP request to the provider, its timeout and text decoding (api/worker.py:13-17, 31-32), and `json.loads` itself: the outcome of the request and the parsed document are inputs.
- Threads: the thread registry, `ensure_worker_for_task`, `resume_running_tasks_on_startup`, the endless `task_worker` loop and its `sleep`; one cycle of the loop is modelled. The race between a background loop and a sweep writing the whole collection is a concurrency issue and is not modelled: every operation is atomic here.
- The web layer: routes, sessions, login, the admin password checks, templates, HTTP status codes and JSON response bodies, and the task list endpoint.
- Clock and id generation (`now_iso`, `uuid.uuid4()`): inputs.
- PyText.ParseInt: reads ASCII digits only; the other Unicode decimal digits, which Python's `int()` also accepts in a string (`int("٥")` is 5), are rejected. `PyText.ReadSigned` and `Store.TargetOf` inherit this.
- PyText.ParseInt: does not model the limit of 4300 digits (`sys.int_max_str_digits`) that Python 3.11 and later apply to `int()` on a string and to `str()`, because the interpreter version is not fixed by the code and counters and targets never come near that size; `PyText.ParseShow` is stated for integers of any length.
- Json.ToInt: floats are exact decimals here, so binary rounding of floats and the overflow of huge exponents to infinity are not modelled; a string is read as `PyText.ParseInt` reads it.
- Store.TaskStore.WorkerCycle: the loop reads the settings after the request; here both happen at once, which is the same without concurrency.
- Store.TaskStore.RunOneIterationForAll: takes one provider answer per task position; entries for tasks that are not running are not used.
- Task records read from a hand-edited file could lack fields or carry other statuses; the model's tasks always have every field and one of the three statuses.
