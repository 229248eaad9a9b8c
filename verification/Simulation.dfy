/**
 The state that all four CPU-scheduling loops maintain, as a relation between the process table and the
 Gantt chart drawn so far, and what one tick does to it.
 */
module Simulation {
  import opened Schedule

  datatype Process = Process(
    pid: int, arrival: int, burst: int,
    remain: int, start: int, finish: int,
    waiting: int, turnaround: int, response: int,
    end: bool)

  function Jobs(s: seq<Process>): (r: seq<Job>)
    ensures |r| == |s| && forall i :: 0 <= i < |s| ==> r[i] == Job(s[i].pid, s[i].arrival, s[i].burst)
  {
    seq(|s|, i requires 0 <= i < |s| => Job(s[i].pid, s[i].arrival, s[i].burst))
  }

  /** A process table as read from the input: nothing has run. */
  ghost predicate Loaded(s: seq<Process>)
  {
    forall i :: 0 <= i < |s| ==> s[i].burst >= 1 && s[i].remain == s[i].burst && !s[i].end
  }

  function EndCount(s: seq<Process>): (n: nat)
    ensures n <= |s|
  {
    if s == [] then 0 else EndCount(s[..|s| - 1]) + if s[|s| - 1].end then 1 else 0
  }

  ghost predicate FeasibleSoFar(jobs: seq<Job>, g: Chart)
  {
    forall t :: 0 <= t < |g| ==> FeasibleAt(jobs, g, t)
  }

  /** Job `i` was completed by the tick before `f`. */
  ghost predicate FinishedAt(jobs: seq<Job>, g: Chart, i: nat, f: int)
    requires i < |jobs|
  {
    1 <= f <= |g| && Left(jobs, g, f)[i] == 0 && Left(jobs, g, f - 1)[i] > 0
  }

  /** `t` is the first tick in which job `i` runs. */
  ghost predicate StartedAt(g: Chart, i: int, t: int)
  {
    0 <= t < |g| && g[t] == i && i !in g[..t]
  }

  /** The fields of one process agree with the chart; `running` is the process not yet checked for its end. */
  ghost predicate RowTracks(jobs: seq<Job>, g: Chart, p: Process, i: nat, running: int)
    requires i < |jobs|
  {
    && p.pid == jobs[i].pid && p.arrival == jobs[i].arrival && p.burst == jobs[i].burst
    && p.remain == Left(jobs, g, |g|)[i]
    && (p.end <==> p.remain == 0 && i != running)
    && (p.end ==> FinishedAt(jobs, g, i, p.finish))
    && (if p.remain == p.burst then i !in g else StartedAt(g, i, p.start))
  }

  /** What the previous tick left in `running`. */
  ghost predicate LastRan(s: seq<Process>, g: Chart, running: int)
  {
    && -1 <= running < |s|
    && (running != -1 ==> g != [] && g[|g| - 1] == running)
    && (running == -1 && g != [] ==> -1 <= g[|g| - 1] < |s| && (g[|g| - 1] != -1 ==> s[g[|g| - 1]].remain == 0))
  }

  ghost predicate Tracks(s: seq<Process>, jobs: seq<Job>, g: Chart, running: int)
  {
    && |s| == |jobs| && Sound(jobs) && FeasibleSoFar(jobs, g)
    && LastRan(s, g, running)
    && forall i :: 0 <= i < |s| ==> RowTracks(jobs, g, s[i], i, running)
  }

  // ---------- extending the chart ----------

  lemma FeasibleExtend(jobs: seq<Job>, g: Chart, i: int)
    requires FeasibleSoFar(jobs, g)
    requires i == -1 || (0 <= i < |jobs| && jobs[i].arrival <= |g| && Left(jobs, g, |g|)[i] > 0)
    ensures FeasibleSoFar(jobs, g + [i])
  {
    hide Left;
    var h := g + [i];
    forall t | 0 <= t < |h|
      ensures FeasibleAt(jobs, h, t)
    {
      LeftPrefix(jobs, g, h, t);
      if t < |g| {
        assert FeasibleAt(jobs, g, t);
      }
    }
  }

  lemma LeftExtend(jobs: seq<Job>, g: Chart, i: int)
    ensures Left(jobs, g + [i], |g| + 1) == Run(Left(jobs, g, |g|), i)
  {
    LeftPrefix(jobs, g, g + [i], |g|);
  }

  lemma FinishedExtend(jobs: seq<Job>, g: Chart, r: int, i: nat, f: int)
    requires i < |jobs| && FinishedAt(jobs, g, i, f)
    ensures FinishedAt(jobs, g + [r], i, f)
  {
    LeftPrefix(jobs, g, g + [r], f);
    LeftPrefix(jobs, g, g + [r], f - 1);
  }

  /** A tick in which process `i` does not run. */
  lemma RowOther(jobs: seq<Job>, g: Chart, p: Process, i: nat, running: int, r: int)
    requires i < |jobs| && RowTracks(jobs, g, p, i, running)
    requires r != i && (i == running ==> p.remain > 0)
    ensures RowTracks(jobs, g + [r], p, i, r)
  {
    hide Left;
    LeftExtend(jobs, g, r);
    if p.end {
      FinishedExtend(jobs, g, r, i, p.finish);
    }
    if p.remain != p.burst {
      assert (g + [r])[..p.start] == g[..p.start];
    }
  }

  /** The process `i` that runs in this tick. */
  lemma RowRuns(jobs: seq<Job>, g: Chart, p: Process, i: nat, running: int)
    requires i < |jobs| && RowTracks(jobs, g, p, i, running) && p.remain > 0
    requires p.burst >= p.remain
    ensures RowTracks(jobs, g + [i], p.(remain := p.remain - 1, start := if p.remain == p.burst then |g| else p.start),
                      i, i)
  {
    hide Left;
    LeftExtend(jobs, g, i);
    assert (g + [i])[..|g|] == g;
    if p.remain != p.burst {
      assert (g + [i])[..p.start] == g[..p.start];
    }
  }

  lemma RemainAtMostBurst(s: seq<Process>, jobs: seq<Job>, g: Chart, running: int, i: nat)
    requires Tracks(s, jobs, g, running) && i < |s|
    ensures 0 <= s[i].remain <= s[i].burst
  {
    LeftNonNegative(jobs, g, |g|);
    LeftDecreases(jobs, g, 0, |g|, i);
    assert RowTracks(jobs, g, s[i], i, running);
  }

  /** Nobody runs: only possible to record when nothing is running. */
  lemma TrackIdle(s: seq<Process>, jobs: seq<Job>, g: Chart)
    requires Tracks(s, jobs, g, -1)
    ensures Tracks(s, jobs, g + [-1], -1)
  {
    hide RowTracks;
    hide FeasibleSoFar;
    FeasibleExtend(jobs, g, -1);
    forall i | 0 <= i < |s|
      ensures RowTracks(jobs, g + [-1], s[i], i, -1)
    {
      RowOther(jobs, g, s[i], i, -1, -1);
    }
  }

  /** Process `r` runs for one tick. */
  lemma TrackRun(s: seq<Process>, jobs: seq<Job>, g: Chart, running: int, r: nat)
    requires Tracks(s, jobs, g, running) && r < |s|
    requires s[r].remain > 0 && s[r].arrival <= |g|
    requires running != -1 ==> s[running].remain > 0
    ensures var p := s[r].(remain := s[r].remain - 1, start := if s[r].remain == s[r].burst then |g| else s[r].start);
            Tracks(s[r := p], jobs, g + [r], r)
  {
    assert RowTracks(jobs, g, s[r], r, running);
    FeasibleExtend(jobs, g, r);
    RemainAtMostBurst(s, jobs, g, running, r);
    hide RowTracks;
    hide FeasibleSoFar;
    RowRuns(jobs, g, s[r], r, running);
    var p := s[r].(remain := s[r].remain - 1, start := if s[r].remain == s[r].burst then |g| else s[r].start);
    var s' := s[r := p];
    forall i | 0 <= i < |s|
      ensures RowTracks(jobs, g + [r], s'[i], i, r)
    {
      if i != r {
        RowOther(jobs, g, s[i], i, running, r);
      }
    }
  }

  /** The running process is found to have nothing left. */
  lemma TrackRetire(s: seq<Process>, jobs: seq<Job>, g: Chart, running: nat)
    requires Tracks(s, jobs, g, running) && s[running].remain == 0
    ensures Tracks(s[running := s[running].(finish := |g|, end := true)], jobs, g, -1)
    ensures EndCount(s[running := s[running].(finish := |g|, end := true)]) == EndCount(s) + 1
  {
    var p := s[running].(finish := |g|, end := true);
    assert RowTracks(jobs, g, s[running], running, running);
    assert FeasibleAt(jobs, g, |g| - 1);
    assert FinishedAt(jobs, g, running, |g|);
    hide Left;
    EndCountUpdate(s, running, p);
    var s' := s[running := p];
    forall i | 0 <= i < |s|
      ensures RowTracks(jobs, g, s'[i], i, -1)
    {
      assert RowTracks(jobs, g, s[i], i, running);
    }
  }

  lemma {:induction false} EndCountUpdate(s: seq<Process>, i: nat, p: Process)
    requires i < |s| && !s[i].end && p.end
    ensures EndCount(s[i := p]) == EndCount(s) + 1
  {
    var n := |s| - 1;
    if i == n {
      assert s[i := p][..n] == s[..n];
    } else {
      assert s[i := p][..n] == s[..n][i := p];
      EndCountUpdate(s[..n], i, p);
    }
  }

  /** Changes that do not touch the end flags do not change the count. */
  lemma {:induction false} EndCountSame(s: seq<Process>, s': seq<Process>)
    requires |s| == |s'| && forall i :: 0 <= i < |s| ==> s[i].end == s'[i].end
    ensures EndCount(s) == EndCount(s')
  {
    if s != [] {
      EndCountSame(s[..|s| - 1], s'[..|s| - 1]);
    }
  }

  lemma {:induction false} EndCountFull(s: seq<Process>)
    requires EndCount(s) == |s|
    ensures forall i :: 0 <= i < |s| ==> s[i].end
  {
    if s != [] {
      EndCountFull(s[..|s| - 1]);
    }
  }

  lemma {:induction false} EndCountNone(s: seq<Process>)
    requires forall i :: 0 <= i < |s| ==> !s[i].end
    ensures EndCount(s) == 0
  {
    if s != [] {
      EndCountNone(s[..|s| - 1]);
    }
  }

  lemma TrackStart(s: seq<Process>)
    requires Loaded(s)
    ensures Tracks(s, Jobs(s), [], -1) && EndCount(s) == 0
  {
    EndCountNone(s);
  }

  /** When every process has ended, the chart is a feasible schedule and `finish` is right. */
  lemma TrackEnd(s: seq<Process>, jobs: seq<Job>, g: Chart)
    requires Tracks(s, jobs, g, -1) && EndCount(s) == |s|
    ensures Feasible(jobs, g)
    ensures forall i :: 0 <= i < |s| ==> s[i].finish == Finish(jobs, g, i, |g|)
    ensures forall i :: 0 <= i < |s| ==> StartedAt(g, i, s[i].start)
  {
    EndCountFull(s);
    forall i | 0 <= i < |s|
      ensures Left(jobs, g, |g|)[i] == 0
      ensures s[i].finish == Finish(jobs, g, i, |g|)
      ensures StartedAt(g, i, s[i].start)
    {
      assert RowTracks(jobs, g, s[i], i, -1);
      FinishIsFirst(jobs, g, i, s[i].finish, |g|);
    }
  }

  /** A process is live exactly when it has arrived and is not ended. */
  lemma LiveRows(s: seq<Process>, jobs: seq<Job>, g: Chart, running: int, i: nat)
    requires Tracks(s, jobs, g, running) && i < |s| && (running != -1 ==> s[running].remain > 0)
    ensures Backlog(jobs, g, |g|)[i] > 0 <==> s[i].arrival <= |g| && !s[i].end
    ensures Backlog(jobs, g, |g|)[i] == if s[i].arrival <= |g| then s[i].remain else 0
    ensures Backlog(jobs, g, |g|)[i] >= 0
  {
    assert RowTracks(jobs, g, s[i], i, running);
    RemainAtMostBurst(s, jobs, g, running, i);
  }

  // ---------- termination ----------

  /** The time all processes together still need. */
  ghost function Work(s: seq<Process>): (n: int)
  {
    if s == [] then 0 else Work(s[..|s| - 1]) + s[|s| - 1].remain
  }

  lemma {:induction false} WorkRun(s: seq<Process>, i: nat, p: Process)
    requires i < |s| && p.remain == s[i].remain - 1
    ensures Work(s[i := p]) == Work(s) - 1
  {
    var n := |s| - 1;
    if i == n {
      assert s[i := p][..n] == s[..n];
    } else {
      assert s[i := p][..n] == s[..n][i := p];
      WorkRun(s[..n], i, p);
    }
  }

  lemma {:induction false} WorkNonNegative(s: seq<Process>)
    requires forall i :: 0 <= i < |s| ==> s[i].remain >= 0
    ensures Work(s) >= 0
  {
    if s != [] {
      WorkNonNegative(s[..|s| - 1]);
    }
  }

  /** The last arrival. */
  ghost function LastArrival(s: seq<Process>): (t: int)
    ensures forall i :: 0 <= i < |s| ==> s[i].arrival <= t
  {
    if s == [] then 0 else
      var t := LastArrival(s[..|s| - 1]);
      assert forall i :: 0 <= i < |s| - 1 ==> s[i] == s[..|s| - 1][i];
      if t >= s[|s| - 1].arrival then t else s[|s| - 1].arrival
  }

  lemma {:induction false} LastArrivalSame(s: seq<Process>, s': seq<Process>)
    requires |s| == |s'| && forall i :: 0 <= i < |s| ==> s[i].arrival == s'[i].arrival
    ensures LastArrival(s) == LastArrival(s')
  {
    if s != [] {
      LastArrivalSame(s[..|s| - 1], s'[..|s| - 1]);
    }
  }

  /** The CPU idles only while some process is still to arrive. */
  lemma IdleMeansWaiting(s: seq<Process>, time: int)
    requires EndCount(s) < |s|
    requires forall i :: 0 <= i < |s| ==> s[i].arrival > time || s[i].end
    ensures time < LastArrival(s)
  {
    if forall i :: 0 <= i < |s| ==> s[i].end {
      EndCountAll(s);
    }
    var i :| 0 <= i < |s| && !s[i].end;
    assert s[i].arrival <= LastArrival(s);
  }

  lemma {:induction false} EndCountAll(s: seq<Process>)
    requires forall i :: 0 <= i < |s| ==> s[i].end
    ensures EndCount(s) == |s|
  {
    if s != [] {
      EndCountAll(s[..|s| - 1]);
    }
  }

  // ---------- context switches ----------

  /** The number of ticks that begin with a different process than ran before. */
  function Switches(g: Chart): (n: nat)
  {
    if g == [] then 0 else
      var n := |g| - 1;
      Switches(g[..n]) + if g[n] != -1 && (n == 0 || g[n - 1] != g[n]) then 1 else 0
  }

  lemma SwitchesExtend(g: Chart, i: int)
    ensures Switches(g + [i]) == Switches(g) + if i != -1 && (g == [] || g[|g| - 1] != i) then 1 else 0
  {
    var h := g + [i];
    assert h[..|g|] == g && h[|g|] == i;
    if g != [] {
      assert h[|g| - 1] == g[|g| - 1];
    }
  }
}
