/**
 The policies leave no choice: a table has one FCFS, one SJF and one SRTF chart, so that everything the
 simulations report is determined by their input.
 */
module Determined {
  import opened Schedule
  import opened Srtf
  import opened Policies
  import opened Simulation
  import opened CpuScheduler
  import Comparison

  lemma FirstShortestOne(live: seq<int>, i: int, j: int)
    requires FirstShortestOf(live, i) && FirstShortestOf(live, j)
    ensures i == j
  {
  }

  lemma FirstLeastBurstOne(jobs: seq<Job>, live: seq<int>, i: int, j: int)
    requires |live| == |jobs| && FirstLeastBurst(jobs, live, i) && FirstLeastBurst(jobs, live, j)
    ensures i == j
  {
  }

  lemma FirstUnfinishedOne(jobs: seq<Job>, left: seq<int>, t: int, i: int, j: int)
    requires |left| == |jobs| && FirstUnfinished(jobs, left, t, i) && FirstUnfinished(jobs, left, t, j)
    ensures i == j
  {
  }

  lemma FirstShortestAt(jobs: seq<Job>, g: Chart, t: nat)
    requires FirstShortest(jobs, g) && t < |g|
    ensures FirstShortestOf(Backlog(jobs, g, t), g[t])
  {
    assert At(g, t) == g[t];
  }

  lemma FirstShortestJobAt(jobs: seq<Job>, g: Chart, t: nat)
    requires FirstShortestJob(jobs, g) && t < |g|
    ensures GoesOn(jobs, g, t) ==> t > 0
    ensures if GoesOn(jobs, g, t) then g[t] == g[t - 1] else FirstLeastBurst(jobs, Backlog(jobs, g, t), g[t])
  {
    hide FirstLeastBurst;
    assert FirstSjfRule(jobs, g, t);
    assert At(g, t) == g[t];
    if t > 0 {
      assert At(g, t - 1) == g[t - 1];
    }
  }

  lemma InOrderAt(jobs: seq<Job>, g: Chart, t: nat)
    requires InOrder(jobs, g) && t < |g|
    ensures FirstUnfinished(jobs, Left(jobs, g, t), t, g[t])
  {
    hide FirstUnfinished;
  }

  lemma SamePast(jobs: seq<Job>, g: Chart, h: Chart, t: nat)
    requires t <= |g| == |h| && g[..t] == h[..t]
    ensures Left(jobs, g, t) == Left(jobs, h, t) && Backlog(jobs, g, t) == Backlog(jobs, h, t)
    ensures GoesOn(jobs, g, t) <==> GoesOn(jobs, h, t)
    ensures t > 0 ==> g[t - 1] == h[t - 1]
  {
    LeftPrefix(jobs, g[..t], g, t);
    LeftPrefix(jobs, h[..t], h, t);
    hide Left;
    if t > 0 {
      assert g[t - 1] == g[..t][t - 1] == h[t - 1];
    }
  }

  lemma OneMore(g: Chart, h: Chart, t: nat)
    requires 0 < t <= |g| == |h| && g[..t - 1] == h[..t - 1] && g[t - 1] == h[t - 1]
    ensures g[..t] == h[..t]
  {
    assert g[..t] == g[..t - 1] + [g[t - 1]] && h[..t] == h[..t - 1] + [h[t - 1]];
  }

  lemma {:induction false} SrtfPrefix(jobs: seq<Job>, g: Chart, h: Chart, t: nat)
    requires |g| == |h| && FirstShortest(jobs, g) && FirstShortest(jobs, h) && t <= |g|
    ensures g[..t] == h[..t]
  {
    hide *;
    if t > 0 {
      SrtfPrefix(jobs, g, h, t - 1);
      SamePast(jobs, g, h, t - 1);
      FirstShortestAt(jobs, g, t - 1);
      FirstShortestAt(jobs, h, t - 1);
      FirstShortestOne(Backlog(jobs, g, t - 1), g[t - 1], h[t - 1]);
      OneMore(g, h, t);
    }
  }

  lemma {:induction false} SjfPrefix(jobs: seq<Job>, g: Chart, h: Chart, t: nat)
    requires |g| == |h| && FirstShortestJob(jobs, g) && FirstShortestJob(jobs, h) && t <= |g|
    ensures g[..t] == h[..t]
  {
    hide *;
    if t > 0 {
      SjfPrefix(jobs, g, h, t - 1);
      SamePast(jobs, g, h, t - 1);
      FirstShortestJobAt(jobs, g, t - 1);
      FirstShortestJobAt(jobs, h, t - 1);
      if !GoesOn(jobs, g, t - 1) {
        FirstLeastBurstOne(jobs, Backlog(jobs, g, t - 1), g[t - 1], h[t - 1]);
      }
      OneMore(g, h, t);
    }
  }

  lemma {:induction false} FcfsPrefix(jobs: seq<Job>, g: Chart, h: Chart, t: nat)
    requires |g| == |h| && InOrder(jobs, g) && InOrder(jobs, h) && t <= |g|
    ensures g[..t] == h[..t]
  {
    hide *;
    if t > 0 {
      FcfsPrefix(jobs, g, h, t - 1);
      SamePast(jobs, g, h, t - 1);
      InOrderAt(jobs, g, t - 1);
      InOrderAt(jobs, h, t - 1);
      FirstUnfinishedOne(jobs, Left(jobs, g, t - 1), t - 1, g[t - 1], h[t - 1]);
      OneMore(g, h, t);
    }
  }

  lemma Whole(g: Chart, h: Chart)
    requires |g| == |h| && g[..|g|] == h[..|g|]
    ensures g == h
  {
    assert g[..|g|] == g && h[..|h|] == h;
  }

  /** There is one SRTF chart of a table. */
  lemma SrtfChartIsOne(jobs: seq<Job>, g: Chart, h: Chart)
    requires Sound(jobs) && FirstShortest(jobs, g) && FirstShortest(jobs, h) && Trimmed(g) && Trimmed(h)
    ensures g == h
  {
    hide *;
    FirstShortestIsShortest(jobs, g);
    FirstShortestIsShortest(jobs, h);
    ShortestFirstConserves(jobs, g);
    ShortestFirstConserves(jobs, h);
    Comparison.SameLength(jobs, g, h);
    SrtfPrefix(jobs, g, h, |g|);
    Whole(g, h);
  }

  /** There is one SJF chart of a table. */
  lemma SjfChartIsOne(jobs: seq<Job>, g: Chart, h: Chart)
    requires Sound(jobs) && FirstShortestJob(jobs, g) && FirstShortestJob(jobs, h) && Trimmed(g) && Trimmed(h)
    ensures g == h
  {
    hide *;
    FirstShortestJobIsSjf(jobs, g);
    FirstShortestJobIsSjf(jobs, h);
    SjfConserves(jobs, g);
    SjfConserves(jobs, h);
    Comparison.SameLength(jobs, g, h);
    SjfPrefix(jobs, g, h, |g|);
    Whole(g, h);
  }

  /** There is one FCFS chart of a table in arrival order. */
  lemma FcfsChartIsOne(jobs: seq<Job>, g: Chart, h: Chart)
    requires Sound(jobs) && InOrder(jobs, g) && InOrder(jobs, h) && Trimmed(g) && Trimmed(h)
    ensures g == h
  {
    hide *;
    InOrderConserves(jobs, g);
    InOrderConserves(jobs, h);
    Comparison.SameLength(jobs, g, h);
    FcfsPrefix(jobs, g, h, |g|);
    Whole(g, h);
  }

  lemma NotBefore(g: Chart, i: int, a: int, b: int)
    requires StartedAt(g, i, a) && 0 <= b < |g| && g[b] == i
    ensures a <= b
  {
    forall k | 0 <= k < a
      ensures g[k] != i
    {
      assert g[..a][k] in g[..a];
    }
  }

  /** Two reports on one chart give every process the same times. */
  lemma SameReport(s: seq<Process>, s': seq<Process>, jobs: seq<Job>, g: Chart, i: nat)
    requires Reported(s, jobs, g) && Reported(s', jobs, g) && i < |jobs|
    ensures |s| == |s'| == |jobs| && s[i].start == s'[i].start && s[i].finish == s'[i].finish
    ensures s[i].turnaround == s'[i].turnaround && s[i].response == s'[i].response
  {
    hide Feasible, Finish;
    assert s[i].arrival == jobs[i].arrival == s'[i].arrival;
    var a, b := s[i].start, s'[i].start;
    assert StartedAt(g, i, a) && StartedAt(g, i, b);
    NotBefore(g, i, a, b);
    NotBefore(g, i, b, a);
  }
}
