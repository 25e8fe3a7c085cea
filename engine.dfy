/**
 * The accumulation engine: one poll applied to one task record
 * (api/worker.py, `task_worker` lines 50-82 and the same code repeated in
 * `run_one_iteration_for_all` lines 122-148), and what follows from
 * applying it poll after poll.
 */
module Engine {
  import opened Wrappers
  import opened Json
  import opened VisitApi

  type Timestamp = string

  datatype Status = Running | Stopped | Completed

  /** How an observed counter value turns into an increment. */
  datatype Mode = AddReports | AddIncrease

  const AccumModeKey: string := "accum_mode"

  /** `settings.get("accum_mode", default)`: the stored mode value, or the configured default. */
  function EffectiveMode(settings: map<string, Json>, default: string): (v: Json)
    ensures AccumModeKey in settings ==> v == settings[AccumModeKey]
    ensures AccumModeKey !in settings ==> v == JString(default)
  {
    if AccumModeKey in settings then settings[AccumModeKey] else JString(default)
  }

  /** `accum_mode == "add_reports"` selects that mode; every other value, string or not, acts as `add_increase`. */
  function ModeOf(v: Json): (m: Mode)
    ensures m == AddReports <==> v == JString("add_reports")
  {
    if v == JString("add_reports") then AddReports else AddIncrease
  }

  /** The three readings of the clock a poll takes: for the log entry, `updated_at` and `completed_at`. */
  datatype Clock = Clock(logTime: Timestamp, updatedAt: Timestamp, completedAt: Timestamp)

  /** One entry of a task's log: `{time, success_value, added, api}`. */
  datatype LogEntry = LogEntry(time: Timestamp, successValue: int, added: int, api: Json)

  datatype Task = Task(
    id: string,
    uid: string,
    target: int,
    accumulated: int,
    status: Status,
    lastSuccessful: Option<int>,
    logs: seq<LogEntry>,
    createdAt: Option<Timestamp>,
    updatedAt: Option<Timestamp>,
    completedAt: Option<Timestamp>)

  /**
   * The increment one poll contributes. Under `add_reports` it is the
   * observed value itself; under `add_increase` it is the observed value on
   * the first poll and afterwards the rise of the counter since the last
   * poll, never less than 0.
   */
  function ComputeAdd(mode: Mode, last: Option<int>, observed: int): (add: int)
    ensures mode == AddReports ==> add == observed
    ensures mode == AddIncrease && last.None? ==> add == observed
    ensures mode == AddIncrease && last.Some? ==>
      add >= 0 && add >= observed - last.value && (add == 0 || add == observed - last.value)
  {
    match mode
    case AddReports => observed
    case AddIncrease =>
      match last
      case None => observed
      case Some(l) => if observed - l > 0 then observed - l else 0
  }

  /** `res.get("api")`: the response document, `JNull` for a failed request. */
  function ApiOf(res: FetchResult): (api: Json)
    ensures res.FetchOk? ==> api == res.api
    ensures res.FetchFailed? ==> api == JNull
  {
    match res
    case FetchOk(api, _) => api
    case FetchFailed(_) => JNull
  }

  /** The log entry a poll appends: when, what was observed, what was added, and the response. */
  function EntryOf(mode: Mode, t: Task, res: FetchResult, clock: Clock): (e: LogEntry)
    ensures e.time == clock.logTime && e.successValue == Observed(res)
    ensures e.added == ComputeAdd(mode, t.lastSuccessful, e.successValue)
    ensures e.api == ApiOf(res)
  {
    LogEntry(clock.logTime, Observed(res), ComputeAdd(mode, t.lastSuccessful, Observed(res)), ApiOf(res))
  }

  /**
   * One poll of a task: add the increment, remember the observed value,
   * log the poll, stamp `updated_at`, and complete the task when the total
   * reaches the target. Completion is level-triggered: it fires on a poll
   * that adds nothing as well.
   */
  function Step(t: Task, mode: Mode, res: FetchResult, clock: Clock): (r: Task)
    ensures r.id == t.id && r.uid == t.uid && r.target == t.target && r.createdAt == t.createdAt
    ensures r.accumulated - t.accumulated == ComputeAdd(mode, t.lastSuccessful, Observed(res))
    ensures r.lastSuccessful == Some(Observed(res))
    ensures |r.logs| == |t.logs| + 1 && r.logs[..|t.logs|] == t.logs
    ensures r.logs[|t.logs|] == EntryOf(mode, t, res, clock)
    ensures r.updatedAt == Some(clock.updatedAt)
    ensures r.status == Completed <==> (r.accumulated >= t.target || t.status == Completed)
    ensures r.status != Completed ==> r.status == t.status
    ensures r.completedAt == if r.accumulated >= t.target then Some(clock.completedAt) else t.completedAt
  {
    var entry := EntryOf(mode, t, res, clock);
    var polled := t.(accumulated := t.accumulated + entry.added,
                     lastSuccessful := Some(entry.successValue),
                     logs := t.logs + [entry],
                     updatedAt := Some(clock.updatedAt));
    if polled.accumulated >= t.target then
      polled.(status := Completed, completedAt := Some(clock.completedAt))
    else polled
  }

  /** What the environment supplies for one poll of one task: the provider's answer and the clock. */
  datatype Poll = Poll(response: HttpOutcome, clock: Clock)

  /** A poll as both drivers perform it: only a `running` task is polled; any other is left as it is. */
  function PollTask(t: Task, mode: Mode, p: Poll): (r: Task)
    ensures t.status != Running ==> r == t
    ensures t.status == Running ==> r == Step(t, mode, CallVisitApi(p.response), p.clock)
  {
    if t.status == Running then Step(t, mode, CallVisitApi(p.response), p.clock) else t
  }

  /**
   * What holds of every task the store ever contains: a positive target; a
   * running task is below its target and a completed one has reached it
   * and carries `completed_at`; `last_successful` is set exactly when the
   * log is non-empty, and then it is the last logged value.
   */
  ghost predicate TaskInvariant(t: Task) {
    t.target > 0
    && (t.status == Running ==> t.accumulated < t.target)
    && (t.status == Completed ==> t.accumulated >= t.target && t.completedAt.Some?)
    && (t.lastSuccessful.Some? <==> |t.logs| > 0)
    && (|t.logs| > 0 ==> t.lastSuccessful == Some(t.logs[|t.logs| - 1].successValue))
  }

  /** A poll keeps the task invariant, and keeps the task's identity. */
  lemma PollKeepsInvariant(t: Task, mode: Mode, p: Poll)
    requires TaskInvariant(t)
    ensures TaskInvariant(PollTask(t, mode, p))
    ensures PollTask(t, mode, p).id == t.id
  {
  }

  /**
   * A task's life under a sequence of polls, one per cycle of either driver,
   * as the `task_worker` loop repeats its cycle. Each poll runs under the
   * mode read for that cycle, `modes[k]` for poll `k`, since the mode can be
   * set between any two polls. Polls never change which task it is.
   */
  function Lifetime(t: Task, modes: seq<Mode>, ps: seq<Poll>): (u: Task)
    requires |modes| == |ps|
    ensures u.id == t.id && u.uid == t.uid && u.target == t.target && u.createdAt == t.createdAt
    decreases ps
  {
    if ps == [] then t else Lifetime(PollTask(t, modes[0], ps[0]), modes[1..], ps[1..])
  }

  /** Every poll of a life runs under the mode `m`. */
  predicate AllModes(modes: seq<Mode>, m: Mode) {
    forall k :: 0 <= k < |modes| ==> modes[k] == m
  }

  /** The observed values of a sequence of polls. */
  function Observations(ps: seq<Poll>): (obs: seq<int>)
    ensures |obs| == |ps|
    ensures forall k :: 0 <= k < |ps| ==> obs[k] == Observed(CallVisitApi(ps[k].response))
  {
    if ps == [] then [] else [Observed(CallVisitApi(ps[0].response))] + Observations(ps[1..])
  }

  function Sum(xs: seq<int>): int {
    if xs == [] then 0 else xs[0] + Sum(xs[1..])
  }

  predicate NonDecreasing(xs: seq<int>) {
    forall i, j :: 0 <= i <= j < |xs| ==> xs[i] <= xs[j]
  }

  /** `stopped` and `completed` are terminal: no further poll changes anything. */
  lemma {:induction false} NotRunningIsTerminal(t: Task, modes: seq<Mode>, ps: seq<Poll>)
    requires |modes| == |ps| && t.status != Running
    ensures Lifetime(t, modes, ps) == t
    decreases ps
  {
    if ps != [] {
      NotRunningIsTerminal(t, modes[1..], ps[1..]);
    }
  }

  /** The task invariant holds for the whole life of a task. */
  lemma {:induction false} LifetimeKeepsInvariant(t: Task, modes: seq<Mode>, ps: seq<Poll>)
    requires |modes| == |ps| && TaskInvariant(t)
    ensures TaskInvariant(Lifetime(t, modes, ps))
    ensures Lifetime(t, modes, ps).id == t.id && Lifetime(t, modes, ps).target == t.target
    decreases ps
  {
    if ps != [] {
      PollKeepsInvariant(t, modes[0], ps[0]);
      LifetimeKeepsInvariant(PollTask(t, modes[0], ps[0]), modes[1..], ps[1..]);
    }
  }

  /**
   * Polls only ever append to the log, at most one entry per poll, and a
   * task still running at the end was polled every time.
   */
  lemma {:induction false} LifetimeLogs(t: Task, modes: seq<Mode>, ps: seq<Poll>)
    requires |modes| == |ps|
    ensures var u := Lifetime(t, modes, ps);
      |t.logs| <= |u.logs| <= |t.logs| + |ps| && u.logs[..|t.logs|] == t.logs
      && (u.status == Running ==> |u.logs| == |t.logs| + |ps|)
    decreases ps
  {
    if ps != [] {
      var t1 := PollTask(t, modes[0], ps[0]);
      LifetimeLogs(t1, modes[1..], ps[1..]);
      var u := Lifetime(t, modes, ps);
      if t.status != Running {
        NotRunningIsTerminal(t, modes, ps);
      } else {
        assert u.logs[..|t1.logs|][..|t.logs|] == u.logs[..|t.logs|];
      }
    }
  }

  /**
   * Under `add_reports`, a task still running after a sequence of polls
   * has gained exactly the sum of the observed values.
   */
  lemma {:induction false} ReportsAddUp(t: Task, modes: seq<Mode>, ps: seq<Poll>)
    requires |modes| == |ps| && AllModes(modes, AddReports)
    ensures var u := Lifetime(t, modes, ps);
      u.status == Running ==> u.accumulated == t.accumulated + Sum(Observations(ps))
    decreases ps
  {
    if ps != [] {
      if t.status != Running {
        NotRunningIsTerminal(t, modes, ps);
      } else {
        assert Observations(ps)[1..] == Observations(ps[1..]);
        assert modes[0] == AddReports;
        ReportsAddUp(PollTask(t, AddReports, ps[0]), modes[1..], ps[1..]);
      }
    }
  }

  /**
   * `accumulated` never decreases when each poll observes a non-negative
   * value or runs under `add_increase` after a counter value has been seen
   * (every poll but the first, or the first too when the task already has
   * a `last_successful`). In particular it never decreases when every
   * observed value is non-negative, whatever the modes, and under
   * `add_increase` alone once a value has been seen, whatever the provider
   * reports.
   */
  lemma {:induction false} AccumulatedNonDecreasing(t: Task, modes: seq<Mode>, ps: seq<Poll>)
    requires |modes| == |ps|
    requires forall k :: 0 <= k < |ps| ==>
      Observed(CallVisitApi(ps[k].response)) >= 0 || (modes[k] == AddIncrease && (k > 0 || t.lastSuccessful.Some?))
    ensures Lifetime(t, modes, ps).accumulated >= t.accumulated
    decreases ps
  {
    if ps != [] {
      if t.status != Running {
        NotRunningIsTerminal(t, modes, ps);
      } else {
        var t1 := PollTask(t, modes[0], ps[0]);
        assert t1.accumulated >= t.accumulated;
        assert t1.lastSuccessful.Some?;
        forall k | 0 <= k < |ps| - 1
          ensures Observed(CallVisitApi(ps[1..][k].response)) >= 0
                  || (modes[1..][k] == AddIncrease && (k > 0 || t1.lastSuccessful.Some?))
        {
          assert ps[1..][k] == ps[k + 1] && modes[1..][k] == modes[k + 1];
        }
        AccumulatedNonDecreasing(t1, modes[1..], ps[1..]);
      }
    }
  }

  /**
   * Under `add_increase`, while the provider's counter never goes back,
   * `accumulated` tracks it: `accumulated - last_successful` stays what it
   * was (taking a missing `last_successful` as 0). For a fresh task this
   * says `accumulated` equals the latest counter value.
   */
  lemma {:induction false} IncreaseTracksCounter(t: Task, modes: seq<Mode>, ps: seq<Poll>)
    requires |modes| == |ps| && AllModes(modes, AddIncrease)
    requires NonDecreasing(Observations(ps))
    requires t.lastSuccessful.Some? ==> forall k :: 0 <= k < |ps| ==> t.lastSuccessful.value <= Observations(ps)[k]
    requires t.lastSuccessful.Some? || (ps != [] && t.status == Running)
    ensures var u := Lifetime(t, modes, ps);
      u.lastSuccessful.Some?
      && u.accumulated - u.lastSuccessful.value == t.accumulated - t.lastSuccessful.GetOr(0)
    decreases ps
  {
    if ps != [] {
      var obs := Observations(ps);
      assert modes[0] == AddIncrease;
      var t1 := PollTask(t, AddIncrease, ps[0]);
      if t.status != Running {
        NotRunningIsTerminal(t, modes, ps);
      } else {
        assert t1.lastSuccessful == Some(obs[0]);
        assert Observations(ps[1..]) == obs[1..];
        assert forall k :: 0 <= k < |ps| - 1 ==> obs[0] <= obs[1..][k];
        IncreaseTracksCounter(t1, modes[1..], ps[1..]);
      }
    }
  }

  /** A poll whose provider answered `{"SuccessfulVisits": n}`. */
  function PollOf(n: int, clock: Clock): Poll {
    Poll(Received("", Some(JObject(map[SuccessfulVisitsKey := JInt(n)]))), clock)
  }

  lemma PollOfObserves(n: int, clock: Clock)
    ensures Observed(CallVisitApi(PollOf(n, clock).response)) == n
  {
    assert SuccessfulVisitsKey in map[SuccessfulVisitsKey := JInt(n)];
  }

  /** Under `add_reports`, reports 5, 3 and 10 add up to 18 on a fresh task. */
  lemma ExampleAddReports(id: string, uid: string, clock: Clock)
    ensures var t := Task(id, uid, 100, 0, Running, None, [], None, None, None);
      Lifetime(t, [AddReports, AddReports, AddReports], [PollOf(5, clock), PollOf(3, clock), PollOf(10, clock)]).accumulated == 18
  {
    var t := Task(id, uid, 100, 0, Running, None, [], None, None, None);
    var ps := [PollOf(5, clock), PollOf(3, clock), PollOf(10, clock)];
    PollOfObserves(5, clock);
    PollOfObserves(3, clock);
    PollOfObserves(10, clock);
    var t1 := PollTask(t, AddReports, ps[0]);
    var t2 := PollTask(t1, AddReports, ps[1]);
    var t3 := PollTask(t2, AddReports, ps[2]);
    assert t1.accumulated == 5 && t2.accumulated == 8 && t3.accumulated == 18;
    var ms := [AddReports, AddReports, AddReports];
    assert ps[1..][1..] == [ps[2]] && [ps[2]][1..] == [];
    assert ms[1..] == [AddReports, AddReports] && ms[1..][1..] == [AddReports] && [AddReports][1..] == [];
    assert Lifetime(t2, [AddReports], [ps[2]]) == t3;
  }

  /**
   * Under `add_increase`, counter values 5, 12 and 10 (a provider reset at
   * the end) give 5 + 7 + 0 = 12, and `last_successful` ends at 10.
   */
  lemma ExampleAddIncrease(id: string, uid: string, clock: Clock)
    ensures var t := Task(id, uid, 100, 0, Running, None, [], None, None, None);
      var u := Lifetime(t, [AddIncrease, AddIncrease, AddIncrease], [PollOf(5, clock), PollOf(12, clock), PollOf(10, clock)]);
      u.accumulated == 12 && u.lastSuccessful == Some(10)
  {
    var t := Task(id, uid, 100, 0, Running, None, [], None, None, None);
    var ps := [PollOf(5, clock), PollOf(12, clock), PollOf(10, clock)];
    PollOfObserves(5, clock);
    PollOfObserves(12, clock);
    PollOfObserves(10, clock);
    var t1 := PollTask(t, AddIncrease, ps[0]);
    var t2 := PollTask(t1, AddIncrease, ps[1]);
    var t3 := PollTask(t2, AddIncrease, ps[2]);
    assert t1.accumulated == 5 && t2.accumulated == 12 && t3.accumulated == 12;
    var ms := [AddIncrease, AddIncrease, AddIncrease];
    assert ps[1..][1..] == [ps[2]] && [ps[2]][1..] == [];
    assert ms[1..] == [AddIncrease, AddIncrease] && ms[1..][1..] == [AddIncrease] && [AddIncrease][1..] == [];
    assert Lifetime(t2, [AddIncrease], [ps[2]]) == t3;
  }

  /** A report that meets the target completes the task and stamps `completed_at`. */
  lemma ExampleCompletion(id: string, uid: string, clock: Clock)
    ensures var t := Task(id, uid, 100, 0, Running, None, [], None, None, None);
      var u := PollTask(t, AddReports, PollOf(100, clock));
      u.status == Completed && u.completedAt == Some(clock.completedAt)
  {
  }

  /** The model follows the code here: a negative report lowers `accumulated` under `add_reports`. */
  lemma NegativeReportLowersTotal(t: Task, body: string, clock: Clock)
    requires t.status == Running
    ensures var api := JObject(map[SuccessfulVisitsKey := JInt(-3)]);
      PollTask(t, AddReports, Poll(Received(body, Some(api)), clock)).accumulated == t.accumulated - 3
  {
  }
}
