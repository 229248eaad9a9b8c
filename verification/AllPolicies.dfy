/**
 The four scheduling simulations on copies of one process table, and what their reports have to do with
 each other.
 */
module AllPolicies {
  import opened Basics
  import opened Schedule
  import opened Srtf
  import opened Policies
  import opened Simulation
  import opened CpuScheduler
  import opened Products
  import NonPreemptive
  import Fcfs
  import Comparison
  import RR = RoundRobin
  import Runs = RoundRobinRuns
  import RoundRobinSimulator

  /** What the program reports as the sum of turnaround times. */
  function TotalTurnaround(s: seq<Process>): (n: int)
  {
    Sum(seq(|s|, i requires 0 <= i < |s| => s[i].turnaround))
  }

  /** What the program reports as the sum of waiting times. */
  function TotalWaiting(s: seq<Process>): (n: int)
  {
    Sum(seq(|s|, i requires 0 <= i < |s| => s[i].waiting))
  }

  lemma ReportedTotal(s: seq<Process>, jobs: seq<Job>, g: Chart)
    requires Reported(s, jobs, g)
    ensures TotalTurnaround(s) == Sum(Turnarounds(jobs, g))
  {
    hide Feasible, Sum, Finish;
    assert seq(|s|, i requires 0 <= i < |s| => s[i].turnaround) == Turnarounds(jobs, g);
  }

  method CopyTable(table: seq<Process>) returns (list: array<Process>)
    ensures fresh(list) && list[..] == table
  {
    list := new Process[|table|](i requires 0 <= i < |table| => table[i]);
  }

  method RunSrtf(table: seq<Process>) returns (s: seq<Process>, latest: nat, ghost g: Chart)
    requires Loaded(table) && forall i :: 0 <= i < |table| ==> table[i].burst < INT_MAX
    ensures Reported(s, Jobs(table), g) && ShortestFirst(Jobs(table), g)
    ensures latest == MaxFinish(Jobs(table), g, |Jobs(table)|)
  {
    LoadedSound(table);
    hide Reported, ShortestFirst, MaxFinish;
    var list := CopyTable(table);
    var switches;
    switches, g := SimulateSrtf(list);
    latest := LatestFinish(list, Jobs(table), g);
    s := list[..];
  }

  method RunSjf(table: seq<Process>) returns (s: seq<Process>, latest: nat, ghost g: Chart)
    requires Loaded(table) && forall i :: 0 <= i < |table| ==> table[i].burst < INT_MAX
    ensures Reported(s, Jobs(table), g) && ShortestJobFirst(Jobs(table), g) && NonPreemptive.OneStretchEach(s, g)
    ensures latest == MaxFinish(Jobs(table), g, |Jobs(table)|)
  {
    LoadedSound(table);
    hide Reported, ShortestJobFirst, MaxFinish, NonPreemptive.OneStretchEach;
    var list := CopyTable(table);
    var switches;
    switches, g := NonPreemptive.SimulateSjf(list);
    latest := LatestFinish(list, Jobs(table), g);
    s := list[..];
  }

  method RunFcfs(table: seq<Process>) returns (s: seq<Process>, latest: nat, ghost g: Chart, ghost perm: seq<nat>)
    requires Loaded(table)
    ensures Reported(s, Jobs(s), g) && SortedByArrival(Jobs(s)) && InOrder(Jobs(s), g)
    ensures Comparison.Reordered(Jobs(table), Jobs(s), perm) && Fcfs.StablyOrdered(Jobs(s), perm)
    ensures NonPreemptive.OneStretchEach(s, g)
    ensures latest == MaxFinish(Jobs(s), g, |Jobs(s)|)
  {
    LoadedSound(table);
    hide Reported, InOrder, MaxFinish, NonPreemptive.OneStretchEach, Fcfs.StablyOrdered;
    var list := CopyTable(table);
    var switches;
    switches, g, perm := Fcfs.SimulateFcfs(list);
    s := list[..];
    Comparison.ReorderedSound(Jobs(table), Jobs(s), perm);
    latest := LatestFinish(list, Jobs(s), g);
  }

  method RunRr(table: seq<Process>, timeSlice: int, uninitialised: int)
    returns (s: seq<Process>, latest: nat, ghost g: Chart)
    requires Loaded(table) && RR.Startable(Jobs(table), Runs.Effective(Jobs(table), timeSlice))
    requires RR.AllQuanta(Jobs(table), Runs.Effective(Jobs(table), timeSlice)) <= RoundRobinSimulator.MAX_SIZE
    ensures Reported(s, Jobs(table), g) && RR.RoundRobinChart(Jobs(table), Runs.Effective(Jobs(table), timeSlice), g)
    ensures forall i :: 0 <= i < |s| ==> s[i].waiting == s[i].finish - s[i].arrival - s[i].burst
    ensures latest == MaxFinish(Jobs(table), g, |Jobs(table)|)
  {
    LoadedSound(table);
    hide Reported, RR.RoundRobinChart, MaxFinish, Runs.Effective;
    var list := CopyTable(table);
    var switches, head, tail;
    switches, g, head, tail := RoundRobinSimulator.SimulateRr(list, timeSlice, uninitialised);
    latest := LatestFinish(list, Jobs(table), g);
    s := list[..];
  }

  lemma LoadedSound(table: seq<Process>)
    requires Loaded(table)
    ensures Sound(Jobs(table))
  {
  }

  // ---------- what the reports say ----------

  /** The rows FCFS reports obey the first-come recurrence, and waiting and turnaround differ by the burst. */
  lemma FcfsRows(s: seq<Process>, g: Chart, i: nat)
    requires Reported(s, Jobs(s), g) && SortedByArrival(Jobs(s)) && InOrder(Jobs(s), g) && Sound(Jobs(s))
    requires NonPreemptive.OneStretchEach(s, g) && i < |s|
    ensures s[i].start == Max(s[i].arrival, if i == 0 then 0 else s[i - 1].finish)
    ensures s[i].finish == s[i].start + s[i].burst && s[i].turnaround == s[i].waiting + s[i].burst
  {
    hide *;
    FcfsRecurrence(Jobs(s), g, i);
    FcfsUnfold(Jobs(s), i);
    RowFacts(s, g, i);
    if i > 0 {
      FcfsRecurrence(Jobs(s), g, i - 1);
      RowFacts(s, g, i - 1);
    }
  }

  lemma FcfsUnfold(jobs: seq<Job>, i: nat)
    requires i < |jobs|
    ensures FcfsFinish(jobs, i) == Max(jobs[i].arrival, if i == 0 then 0 else FcfsFinish(jobs, i - 1)) + jobs[i].burst
  {
  }

  lemma RowFacts(s: seq<Process>, g: Chart, i: nat)
    requires Reported(s, Jobs(s), g) && NonPreemptive.OneStretchEach(s, g) && i < |s|
    ensures s[i].finish == Finish(Jobs(s), g, i, |g|) == s[i].start + s[i].burst
    ensures s[i].turnaround == s[i].finish - s[i].arrival && s[i].waiting == s[i].start - s[i].arrival
    ensures Jobs(s)[i].arrival == s[i].arrival && Jobs(s)[i].burst == s[i].burst && |Jobs(s)| == |s|
  {
    hide Feasible, Finish;
  }

  /** The rows SJF reports: turnaround is waiting plus burst, and the total waiting is that of the chart. */
  lemma SjfRows(s: seq<Process>, jobs: seq<Job>, g: Chart)
    requires Reported(s, jobs, g) && NonPreemptive.OneStretchEach(s, g)
    ensures forall i :: 0 <= i < |s| ==> s[i].turnaround == s[i].waiting + s[i].burst
    ensures TotalWaiting(s) == Sum(Waitings(jobs, g))
  {
    hide Feasible, Finish, Sum;
    assert Jobs(s) == jobs;
    assert seq(|s|, i requires 0 <= i < |s| => s[i].waiting) == Waitings(jobs, g);
  }

  /** For processes that arrive together no schedule waits less in total than what SJF reports. */
  lemma SjfWaitsLeast(s: seq<Process>, jobs: seq<Job>, g: Chart, h: Chart, a: int)
    requires Sound(jobs) && Reported(s, jobs, g) && NonPreemptive.OneStretchEach(s, g) && ShortestJobFirst(jobs, g)
    requires Together(jobs, a) && Feasible(jobs, h)
    ensures TotalWaiting(s) <= Sum(Waitings(jobs, h))
  {
    hide Reported, NonPreemptive.OneStretchEach, ShortestJobFirst, Feasible, Together, Sum;
    SjfRows(s, jobs, g);
    SjfOptimalTogether(jobs, g, h, a);
  }

  /** No process waits longer under round robin than its slices allow, nor for its first slice. */
  lemma RrRows(s: seq<Process>, jobs: seq<Job>, quantum: nat, g: Chart, i: nat)
    requires Reported(s, jobs, g) && quantum >= 1 && RR.Startable(jobs, quantum) && RR.RoundRobinChart(jobs, quantum, g)
    requires i < |s| && s[i].waiting == s[i].finish - s[i].arrival - s[i].burst
    ensures s[i].response <= RR.LongestWait(jobs, quantum)
    ensures s[i].waiting <= Times(RR.Quanta(jobs[i].burst, quantum), RR.LongestWait(jobs, quantum))
  {
    RR.RoundRobinFeasible(jobs, quantum, g);
    RR.WaitingBound(jobs, quantum, g, i);
    RR.ResponseBound(jobs, quantum, g, i, s[i].start);
    hide RR.RoundRobinChart, RR.Drawn, Feasible, RR.LongestWait, Times, RR.Quanta;
  }

  /** The whole comparison, on what the four simulations report. */
  method RunAll(table: seq<Process>, timeSlice: int, uninitialised: int)
    returns (fcfs: seq<Process>, sjf: seq<Process>, srtf: seq<Process>, rr: seq<Process>, latest: seq<nat>)
    requires Loaded(table) && forall i :: 0 <= i < |table| ==> table[i].burst < INT_MAX
    requires RR.Startable(Jobs(table), Runs.Effective(Jobs(table), timeSlice))
    requires RR.AllQuanta(Jobs(table), Runs.Effective(Jobs(table), timeSlice)) <= RoundRobinSimulator.MAX_SIZE
    ensures TotalTurnaround(srtf) <= TotalTurnaround(fcfs)
    ensures TotalTurnaround(srtf) <= TotalTurnaround(sjf)
    ensures TotalTurnaround(srtf) <= TotalTurnaround(rr)
    ensures timeSlice <= 0 ==> TotalTurnaround(rr) == TotalTurnaround(fcfs)
    ensures |latest| == 4 && latest[0] == latest[1] == latest[2] == latest[3]
    ensures |fcfs| == |rr| == |sjf| == |table|
    ensures forall i :: 0 <= i < |fcfs| ==>
              fcfs[i].start == Max(fcfs[i].arrival, if i == 0 then 0 else fcfs[i - 1].finish)
    ensures forall i :: 0 <= i < |sjf| ==> sjf[i].turnaround == sjf[i].waiting + sjf[i].burst
    ensures forall a, h :: Together(Jobs(table), a) && Feasible(Jobs(table), h) ==>
              TotalWaiting(sjf) <= Sum(Waitings(Jobs(table), h))
    ensures var quantum := Runs.Effective(Jobs(table), timeSlice);
            forall i :: 0 <= i < |rr| ==>
              && rr[i].response <= RR.LongestWait(Jobs(table), quantum)
              && rr[i].waiting <= Times(RR.Quanta(rr[i].burst, quantum), RR.LongestWait(Jobs(table), quantum))
  {
    hide *;
    ghost var jobs := Jobs(table);
    ghost var quantum := Runs.Effective(jobs, timeSlice);
    ghost var perm, gFcfs, gSjf, gSrtf, gRr;
    var mFcfs, mSjf, mSrtf, mRr;
    fcfs, mFcfs, gFcfs, perm := RunFcfs(table);
    sjf, mSjf, gSjf := RunSjf(table);
    srtf, mSrtf, gSrtf := RunSrtf(table);
    rr, mRr, gRr := RunRr(table, timeSlice, uninitialised);
    latest := [mFcfs, mSjf, mSrtf, mRr];
    LoadedSound(table);
    Comparison.ReorderedSound(jobs, Jobs(fcfs), perm);
    ReportedFacts(fcfs, Jobs(fcfs), gFcfs);
    ReportedFacts(sjf, jobs, gSjf);
    ReportedFacts(srtf, jobs, gSrtf);
    ReportedFacts(rr, jobs, gRr);
    Comparison.FourPoliciesAgree(jobs, Jobs(fcfs), perm, quantum, gFcfs, gSjf, gSrtf, gRr);
    if timeSlice <= 0 {
      Comparison.NeverOutIsFcfs(jobs, Jobs(fcfs), perm, quantum, gFcfs, gRr);
    }
    forall i | 0 <= i < |fcfs|
      ensures fcfs[i].start == Max(fcfs[i].arrival, if i == 0 then 0 else fcfs[i - 1].finish)
    {
      FcfsRows(fcfs, gFcfs, i);
    }
    SjfRows(sjf, jobs, gSjf);
    forall a, h | Together(jobs, a) && Feasible(jobs, h)
      ensures TotalWaiting(sjf) <= Sum(Waitings(jobs, h))
    {
      SjfWaitsLeast(sjf, jobs, gSjf, h, a);
    }
    forall i | 0 <= i < |rr|
      ensures rr[i].response <= RR.LongestWait(jobs, quantum)
      ensures rr[i].waiting <= Times(RR.Quanta(rr[i].burst, quantum), RR.LongestWait(jobs, quantum))
    {
      RrRows(rr, jobs, quantum, gRr, i);
    }
  }

  lemma ReportedFacts(s: seq<Process>, jobs: seq<Job>, g: Chart)
    requires Reported(s, jobs, g)
    ensures Trimmed(g) && |s| == |jobs| && TotalTurnaround(s) == Sum(Turnarounds(jobs, g))
    ensures forall i :: 0 <= i < |s| ==> s[i].burst == jobs[i].burst
  {
    ReportedTotal(s, jobs, g);
    hide Feasible;
    assert Jobs(s) == jobs;
  }
}
