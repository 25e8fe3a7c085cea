/**
 * The synchronous sweep `run_one_iteration_for_all` (api/worker.py:111-151):
 * one poll of every running task, in list order, with a report per polled
 * task.
 */
module Sweep {
  import opened Wrappers
  import opened Json
  import opened VisitApi
  import opened Engine

  /** The per-task summary the sweep returns: `{id, uid, added, accumulated, status}`. */
  datatype TaskReport = TaskReport(id: string, uid: string, added: int, accumulated: int, status: Status)

  /** The sweep's answer: `{processed, results, accum_mode}`. */
  datatype SweepReport = SweepReport(processed: nat, results: seq<TaskReport>, accumMode: Json)

  /** The positions of the running tasks, in increasing order: exactly the tasks a sweep polls. */
  function RunningIndices(ts: seq<Task>): (idx: seq<nat>)
    ensures forall k :: 0 <= k < |idx| ==> idx[k] < |ts| && ts[idx[k]].status == Running
    ensures forall k, l :: 0 <= k < l < |idx| ==> idx[k] < idx[l]
    ensures forall i :: 0 <= i < |ts| && ts[i].status == Running ==> i in idx
    decreases |ts|
  {
    if ts == [] then []
    else
      var front := RunningIndices(ts[..|ts| - 1]);
      if ts[|ts| - 1].status == Running then front + [|ts| - 1] else front
  }

  /** The collection after a sweep: every running task polled once, every other task untouched. */
  function SweptTasks(ts: seq<Task>, mode: Mode, polls: seq<Poll>): (r: seq<Task>)
    requires |polls| == |ts|
    ensures |r| == |ts|
    ensures forall i :: 0 <= i < |ts| ==> r[i] == PollTask(ts[i], mode, polls[i])
  {
    seq(|ts|, i requires 0 <= i < |ts| => PollTask(ts[i], mode, polls[i]))
  }

  /** The report on one polled task: the increment, and the task's new total and status. */
  function ReportOf(t: Task, mode: Mode, p: Poll): (r: TaskReport)
    ensures var u := Step(t, mode, CallVisitApi(p.response), p.clock);
      r == TaskReport(t.id, t.uid, u.accumulated - t.accumulated, u.accumulated, u.status)
  {
    var res := CallVisitApi(p.response);
    var u := Step(t, mode, res, p.clock);
    TaskReport(t.id, t.uid, ComputeAdd(mode, t.lastSuccessful, Observed(res)), u.accumulated, u.status)
  }

  /** The sweep's `results`, built as the loop builds it: one report per running task, in list order. */
  function SweepReports(ts: seq<Task>, mode: Mode, polls: seq<Poll>): (rs: seq<TaskReport>)
    requires |polls| == |ts|
    ensures |rs| == |RunningIndices(ts)|
    decreases |ts|
  {
    if ts == [] then []
    else
      var n := |ts| - 1;
      var front := SweepReports(ts[..n], mode, polls[..n]);
      if ts[n].status == Running then front + [ReportOf(ts[n], mode, polls[n])] else front
  }

  /** One more task at the end adds one report if, and only if, it is running. */
  lemma SweepExtend(ts: seq<Task>, mode: Mode, polls: seq<Poll>, i: nat)
    requires |polls| == |ts| && i < |ts|
    ensures SweepReports(ts[..i + 1], mode, polls[..i + 1])
         == SweepReports(ts[..i], mode, polls[..i]) + (if ts[i].status == Running then [ReportOf(ts[i], mode, polls[i])] else [])
  {
    assert ts[..i + 1][..i] == ts[..i];
    assert polls[..i + 1][..i] == polls[..i];
  }

  /** The k-th report is about the k-th running task, so there are as many reports as running tasks. */
  lemma {:induction false} ReportsFollowRunningTasks(ts: seq<Task>, mode: Mode, polls: seq<Poll>)
    requires |polls| == |ts|
    ensures var idx, rs := RunningIndices(ts), SweepReports(ts, mode, polls);
      |rs| == |idx|
      && forall k :: 0 <= k < |rs| ==> rs[k] == ReportOf(ts[idx[k]], mode, polls[idx[k]])
    decreases |ts|
  {
    if ts != [] {
      var n := |ts| - 1;
      var ts', ps' := ts[..n], polls[..n];
      ReportsFollowRunningTasks(ts', mode, ps');
      var front, rfront := RunningIndices(ts'), SweepReports(ts', mode, ps');
      var idx, rs := RunningIndices(ts), SweepReports(ts, mode, polls);
      forall k | 0 <= k < |rs| ensures rs[k] == ReportOf(ts[idx[k]], mode, polls[idx[k]]) {
        if k < |rfront| {
          assert rs[k] == rfront[k] && idx[k] == front[k];
          assert ts'[front[k]] == ts[front[k]] && ps'[front[k]] == polls[front[k]];
        }
      }
    }
  }

  /** Polling task `i` extends the polled prefix of the collection by one. */
  lemma PollNext(tasks: seq<Task>, mode: Mode, polls: seq<Poll>, i: nat, updated: seq<Task>, u: Task)
    requires |polls| == |tasks| == |updated| && i < |tasks|
    requires forall j :: 0 <= j < |tasks| ==> updated[j] == if j < i then PollTask(tasks[j], mode, polls[j]) else tasks[j]
    requires u == PollTask(tasks[i], mode, polls[i])
    ensures forall j :: 0 <= j < |tasks| ==> updated[i := u][j] == if j < i + 1 then PollTask(tasks[j], mode, polls[j]) else tasks[j]
  {
  }

  /**
   * The loop of `run_one_iteration_for_all`: skip every task that is not
   * running; poll the others in order, counting them and collecting a report
   * on each.
   */
  method SweepTasks(tasks: seq<Task>, mode: Mode, polls: seq<Poll>)
    returns (updated: seq<Task>, processed: nat, results: seq<TaskReport>)
    requires |polls| == |tasks|
    ensures updated == SweptTasks(tasks, mode, polls)
    ensures processed == |RunningIndices(tasks)|
    ensures results == SweepReports(tasks, mode, polls)
  {
    updated, processed, results := tasks, 0, [];
    for i := 0 to |tasks|
      invariant |updated| == |tasks|
      invariant forall j :: 0 <= j < |tasks| ==> updated[j] == if j < i then PollTask(tasks[j], mode, polls[j]) else tasks[j]
      invariant processed == |results|
      invariant results == SweepReports(tasks[..i], mode, polls[..i])
    {
      SweepExtend(tasks, mode, polls, i);
      var t := updated[i];
      assert t == tasks[i];
      if t.status != Running {
        PollNext(tasks, mode, polls, i, updated, t);
        assert updated[i := t] == updated;
        continue;
      }
      processed := processed + 1;
      var res := CallVisitApi(polls[i].response);
      var add := ComputeAdd(mode, t.lastSuccessful, Observed(res));
      var u := Step(t, mode, res, polls[i].clock);
      PollNext(tasks, mode, polls, i, updated, u);
      assert TaskReport(u.id, u.uid, add, u.accumulated, u.status) == ReportOf(t, mode, polls[i]);
      updated := updated[i := u];
      results := results + [TaskReport(u.id, u.uid, add, u.accumulated, u.status)];
    }
    assert tasks[..|tasks|] == tasks;
    assert polls[..|polls|] == polls;
  }

  /**
   * Two sweeps in a row under `add_increase`, the provider answering the
   * same counter value `c` both times: the second sweep adds 0 to every task
   * it polls and changes no task's total or status.
   */
  lemma SecondSweepAddsNothing(ts: seq<Task>, polls1: seq<Poll>, polls2: seq<Poll>, c: int)
    requires |polls1| == |ts| && |polls2| == |ts|
    requires forall i :: 0 <= i < |ts| ==> Observed(CallVisitApi(polls1[i].response)) == c
    requires forall i :: 0 <= i < |ts| ==> Observed(CallVisitApi(polls2[i].response)) == c
    ensures var ts1 := SweptTasks(ts, AddIncrease, polls1);
      var rs := SweepReports(ts1, AddIncrease, polls2);
      (forall k :: 0 <= k < |rs| ==> rs[k].added == 0)
      && forall i :: 0 <= i < |ts| ==>
           SweptTasks(ts1, AddIncrease, polls2)[i].accumulated == ts1[i].accumulated
           && SweptTasks(ts1, AddIncrease, polls2)[i].status == ts1[i].status
  {
    var ts1 := SweptTasks(ts, AddIncrease, polls1);
    ReportsFollowRunningTasks(ts1, AddIncrease, polls2);
    forall i | 0 <= i < |ts| && ts1[i].status == Running
      ensures ts1[i].lastSuccessful == Some(c)
    {
      assert ts[i].status == Running;
    }
  }

  /** A sweep keeps the task invariant of every task and changes no task's id. */
  lemma SweepKeepsInvariant(ts: seq<Task>, mode: Mode, polls: seq<Poll>)
    requires |polls| == |ts|
    requires forall i :: 0 <= i < |ts| ==> TaskInvariant(ts[i])
    ensures forall i :: 0 <= i < |ts| ==> TaskInvariant(SweptTasks(ts, mode, polls)[i])
    ensures forall i :: 0 <= i < |ts| ==> SweptTasks(ts, mode, polls)[i].id == ts[i].id
  {
    forall i | 0 <= i < |ts| ensures TaskInvariant(SweptTasks(ts, mode, polls)[i]) {
      PollKeepsInvariant(ts[i], mode, polls[i]);
    }
  }
}
