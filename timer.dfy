/** Time tracking: starting and pausing the timer of the viewed task, and
    the running total the once-a-second refresh shows. The clock is the
    parameter `now` (milliseconds, as `Date.now()` gives them). */
module Timer {
  import opened Js
  import opened Records

  /** `Date.now() - task.currentSessionStartTime`, where a null start time
      counts as 0. */
  function Elapsed(t: Task, now: int): int {
    now - match t.currentSessionStartTime case Some(s) => s case None => 0
  }

  /** The start handler: the viewed task starts when it exists and no task
      at all is running; `None` when the click changes nothing. */
  function Start(tasks: seq<Task>, viewed: Prop<int>, now: int): Option<seq<Task>> {
    match FindById(tasks, viewed)
    case Some(i) =>
      if AnyRunning(tasks) then None
      else Some(tasks[i := tasks[i].(isTimerRunning := true, currentSessionStartTime := Some(now))])
    case None => None
  }

  /** The pause handler: when the viewed task is running, its session is
      added to its time spent and the timer stops. */
  function Pause(tasks: seq<Task>, viewed: Prop<int>, now: int): Option<seq<Task>> {
    match FindById(tasks, viewed)
    case Some(i) =>
      if !tasks[i].isTimerRunning then None
      else Some(tasks[i := tasks[i].(timeSpent := tasks[i].timeSpent + Elapsed(tasks[i], now),
                                       isTimerRunning := false, currentSessionStartTime := None)])
    case None => None
  }

  /** The refresh: the time spent plus the current session, shown only when
      the first running task is the viewed one. */
  function LiveTotal(tasks: seq<Task>, viewed: Prop<int>, now: int): Option<int> {
    match FirstRunning(tasks)
    case Some(i) => if tasks[i].id == viewed then Some(tasks[i].timeSpent + Elapsed(tasks[i], now)) else None
    case None => None
  }

  predicate DistinctIds(tasks: seq<Task>) {
    forall i, j :: 0 <= i < j < |tasks| ==> tasks[i].id != tasks[j].id
  }

  /** Starting succeeds exactly when the viewed task exists and nothing is
      running; it then marks only that task running from `now`, and after it
      exactly one task runs. */
  lemma {:induction false} StartSpec(tasks: seq<Task>, viewed: Prop<int>, now: int)
    ensures Start(tasks, viewed, now).Some? <==> FindById(tasks, viewed).Some? && !AnyRunning(tasks)
    ensures Start(tasks, viewed, now).Some? ==>
      var r, i := Start(tasks, viewed, now).value, FindById(tasks, viewed).value;
      && |r| == |tasks|
      && r[i] == tasks[i].(isTimerRunning := true, currentSessionStartTime := Some(now))
      && (forall k :: 0 <= k < |tasks| && k != i ==> r[k] == tasks[k])
      && AtMostOneRunning(r) && AnyRunning(r)
  {
  }

  /** A second timer cannot start while one is running. */
  lemma {:induction false} StartBlockedWhileRunning(tasks: seq<Task>, viewed: Prop<int>, now: int)
    requires AnyRunning(tasks)
    ensures Start(tasks, viewed, now).None?
  {
  }

  /** Pausing succeeds exactly when the viewed task exists and runs; it then
      adds the session to that task's time, stops it, clears its start time,
      and touches nothing else. */
  lemma {:induction false} PauseSpec(tasks: seq<Task>, viewed: Prop<int>, now: int)
    ensures Pause(tasks, viewed, now).Some? <==>
      FindById(tasks, viewed).Some? && tasks[FindById(tasks, viewed).value].isTimerRunning
    ensures Pause(tasks, viewed, now).Some? ==>
      var r, i := Pause(tasks, viewed, now).value, FindById(tasks, viewed).value;
      && |r| == |tasks|
      && r[i].timeSpent == tasks[i].timeSpent + Elapsed(tasks[i], now)
      && !r[i].isTimerRunning && r[i].currentSessionStartTime == None
      && r[i].(timeSpent := tasks[i].timeSpent, isTimerRunning := true,
               currentSessionStartTime := tasks[i].currentSessionStartTime) == tasks[i]
      && (forall k :: 0 <= k < |tasks| && k != i ==> r[k] == tasks[k])
  {
  }

  /** Pausing keeps the single-timer invariant, and with it in force no
      task runs afterwards. */
  lemma {:induction false} PauseStopsAll(tasks: seq<Task>, viewed: Prop<int>, now: int)
    requires AtMostOneRunning(tasks)
    requires Pause(tasks, viewed, now).Some?
    ensures AtMostOneRunning(Pause(tasks, viewed, now).value)
    ensures !AnyRunning(Pause(tasks, viewed, now).value)
  {
    var i := FindById(tasks, viewed).value;
    var r := Pause(tasks, viewed, now).value;
    forall k | 0 <= k < |r| ensures !r[k].isTimerRunning {
      if k != i {
        assert r[k] == tasks[k];
      }
    }
  }

  /** A start at `t0` followed by a pause at `t1` leaves the collection as
      it was, except that the task has spent `t1 - t0` more and holds no
      start time. */
  lemma {:induction false} StartThenPause(tasks: seq<Task>, viewed: Prop<int>, t0: int, t1: int)
    requires Start(tasks, viewed, t0).Some?
    ensures var i := FindById(tasks, viewed).value;
      && Pause(Start(tasks, viewed, t0).value, viewed, t1)
         == Some(tasks[i := tasks[i].(timeSpent := tasks[i].timeSpent + (t1 - t0), currentSessionStartTime := None)])
  {
    var i := FindById(tasks, viewed).value;
    var s := Start(tasks, viewed, t0).value;
    FindByIdOnlyReadsIds(tasks, s, viewed);
    PauseOfStarted(tasks, s, i, viewed, t0, t1);
  }

  lemma {:induction false} PauseOfStarted(tasks: seq<Task>, s: seq<Task>, i: nat, viewed: Prop<int>, t0: int, t1: int)
    requires i < |tasks| && !tasks[i].isTimerRunning
    requires s == tasks[i := tasks[i].(isTimerRunning := true, currentSessionStartTime := Some(t0))]
    requires FindById(s, viewed) == Some(i)
    ensures Pause(s, viewed, t1)
         == Some(tasks[i := tasks[i].(timeSpent := tasks[i].timeSpent + (t1 - t0), currentSessionStartTime := None)])
  {
    var after := s[i].(timeSpent := s[i].timeSpent + (t1 - t0), isTimerRunning := false, currentSessionStartTime := None);
    assert s[i].isTimerRunning && Elapsed(s[i], t1) == t1 - t0;
    assert Pause(s, viewed, t1) == Some(s[i := after]);
    assert after == tasks[i].(timeSpent := tasks[i].timeSpent + (t1 - t0), currentSessionStartTime := None);
    assert s[i := after] == tasks[i := after];
  }

  /** With distinct ids, the total the refresh shows at `now` is what a
      pause at `now` commits to the task. */
  lemma {:induction false} LiveTotalIsWhatPauseCommits(tasks: seq<Task>, viewed: Prop<int>, now: int)
    requires DistinctIds(tasks)
    requires LiveTotal(tasks, viewed, now).Some?
    ensures Pause(tasks, viewed, now).Some?
    ensures Pause(tasks, viewed, now).value[FindById(tasks, viewed).value].timeSpent
         == LiveTotal(tasks, viewed, now).value
  {
    var i := FirstRunning(tasks).value;
    var j := FindById(tasks, viewed).value;
    assert tasks[i].id == viewed;
    assert j == i;
  }

  /** Nothing is shown while no task runs, or while another task than the
      viewed one runs. */
  lemma {:induction false} LiveTotalHidden(tasks: seq<Task>, viewed: Prop<int>, now: int)
    ensures !AnyRunning(tasks) ==> LiveTotal(tasks, viewed, now).None?
    ensures AnyRunning(tasks) && tasks[FirstRunning(tasks).value].id != viewed ==> LiveTotal(tasks, viewed, now).None?
  {
  }
}
