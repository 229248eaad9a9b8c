/**
 What the scheduling policies have in common and where they differ: work conservation, the first-come
 recurrence, and shortest-job-first on jobs that arrive together.
 */
module Policies {
  import opened Basics
  import opened Schedule
  import opened Srtf

  // ---------- work conservation ----------

  /** The CPU idles only when no job is live. */
  ghost predicate WorkConserving(jobs: seq<Job>, g: Chart)
  {
    && Feasible(jobs, g)
    && forall t :: 0 <= t < |g| && g[t] == -1 ==> AllDone(Backlog(jobs, g, t))
  }

  ghost predicate AllDone(live: seq<int>)
  {
    forall i :: 0 <= i < |live| ==> live[i] == 0
  }

  /** The chart stops with the last job, not with idle ticks. */
  ghost predicate Trimmed(g: Chart)
  {
    g != [] ==> g[|g| - 1] != -1
  }

  lemma ShortestFirstConserves(jobs: seq<Job>, g: Chart)
    requires ShortestFirst(jobs, g)
    ensures WorkConserving(jobs, g)
  {
    hide Feasible;
    hide Backlog;
    forall t | 0 <= t < |g| && g[t] == -1
      ensures AllDone(Backlog(jobs, g, t))
    {
      assert ShortestOf(Backlog(jobs, g, t), At(g, t));
    }
  }

  lemma {:induction false} SumZeroIff(r: seq<int>)
    requires NonNegative(r)
    ensures Sum(r) >= 0
    ensures Sum(r) == 0 <==> AllDone(r)
  {
    if r != [] {
      SumZeroIff(r[..|r| - 1]);
    }
  }

  lemma {:induction false} SumUpdate(r: seq<int>, i: nat, b: int)
    requires i < |r|
    ensures Sum(r[i := b]) == Sum(r) - r[i] + b
  {
    var n := |r| - 1;
    if i == n {
      assert r[i := b][..n] == r[..n];
    } else {
      assert r[i := b][..n] == r[..n][i := b];
      SumUpdate(r[..n], i, b);
    }
  }

  lemma {:induction false} SameGrowth(a: seq<int>, a': seq<int>, b: seq<int>, b': seq<int>)
    requires |a| == |a'| == |b| == |b'|
    requires forall i :: 0 <= i < |a| ==> a'[i] - a[i] == b'[i] - b[i]
    ensures Sum(a') - Sum(a) == Sum(b') - Sum(b)
  {
    if a != [] {
      var n := |a| - 1;
      SameGrowth(a[..n], a'[..n], b[..n], b'[..n]);
    }
  }

  /** The arrivals of tick `t + 1` add the same work to any two schedules. */
  lemma ArrivalsAdd(jobs: seq<Job>, g: Chart, h: Chart, t: nat)
    requires Sound(jobs) && Feasible(jobs, g) && Feasible(jobs, h)
    ensures Sum(Backlog(jobs, g, t + 1)) - Sum(Run(Backlog(jobs, g, t), At(g, t)))
            == Sum(Backlog(jobs, h, t + 1)) - Sum(Run(Backlog(jobs, h, t), At(h, t)))
  {
    hide Feasible;
    BacklogStep(jobs, g, t);
    BacklogStep(jobs, h, t);
    SameArrivals(jobs, g, h, t + 1);
    hide Left;
    SameGrowth(Live(jobs, Left(jobs, g, t + 1), t), Backlog(jobs, g, t + 1),
               Live(jobs, Left(jobs, h, t + 1), t), Backlog(jobs, h, t + 1));
  }

  lemma RunSum(r: seq<int>, i: int)
    requires NonNegative(r) && (0 <= i < |r| ==> r[i] > 0)
    ensures Sum(Run(r, i)) == Sum(r) - if 0 <= i < |r| then 1 else 0
    ensures Sum(Run(r, i)) >= 0
  {
    if 0 <= i < |r| {
      SumUpdate(r, i, r[i] - 1);
    }
    SumZeroIff(Run(r, i));
  }

  lemma ConservingTick(jobs: seq<Job>, g: Chart, t: nat)
    requires Sound(jobs) && WorkConserving(jobs, g)
    ensures At(g, t) == -1 <==> Sum(Backlog(jobs, g, t)) == 0
    ensures At(g, t) != -1 ==> 0 <= At(g, t) < |jobs|
  {
    FeasibleTick(jobs, g, t);
    SumZeroIff(Backlog(jobs, g, t));
    if t >= |g| {
      LeftAfterEnd(jobs, g, t);
    }
  }

  lemma BacklogShrinks(jobs: seq<Job>, g: Chart, h: Chart, t: nat)
    requires Sound(jobs) && WorkConserving(jobs, g) && Feasible(jobs, h)
    requires Sum(Backlog(jobs, g, t)) <= Sum(Backlog(jobs, h, t))
    ensures Sum(Run(Backlog(jobs, g, t), At(g, t))) <= Sum(Run(Backlog(jobs, h, t), At(h, t)))
  {
    hide Feasible;
    hide Backlog;
    FeasibleTick(jobs, g, t);
    FeasibleTick(jobs, h, t);
    ConservingTick(jobs, g, t);
    RunSum(Backlog(jobs, g, t), At(g, t));
    RunSum(Backlog(jobs, h, t), At(h, t));
  }

  /** At every tick, a work-conserving schedule has no more work left than any feasible schedule. */
  lemma {:induction false} LeastBacklog(jobs: seq<Job>, g: Chart, h: Chart, t: nat)
    requires Sound(jobs) && WorkConserving(jobs, g) && Feasible(jobs, h)
    ensures Sum(Backlog(jobs, g, t)) <= Sum(Backlog(jobs, h, t))
  {
    hide *;
    if t == 0 {
      SameStart(jobs, g, h);
    } else {
      ConservingFeasible(jobs, g);
      LeastBacklog(jobs, g, h, t - 1);
      BacklogShrinks(jobs, g, h, t - 1);
      ArrivalsAdd(jobs, g, h, t - 1);
    }
  }

  lemma SameStart(jobs: seq<Job>, g: Chart, h: Chart)
    ensures Backlog(jobs, g, 0) == Backlog(jobs, h, 0)
  {
  }

  lemma ConservingFeasible(jobs: seq<Job>, g: Chart)
    requires WorkConserving(jobs, g)
    ensures Feasible(jobs, g)
  {
  }

  /** All work-conserving schedules have the same work left at every tick, and are busy in the same ticks. */
  lemma SameWork(jobs: seq<Job>, g: Chart, h: Chart, t: nat)
    requires Sound(jobs) && WorkConserving(jobs, g) && WorkConserving(jobs, h)
    ensures Sum(Backlog(jobs, g, t)) == Sum(Backlog(jobs, h, t))
    ensures At(g, t) == -1 <==> At(h, t) == -1
  {
    hide Feasible;
    LeastBacklog(jobs, g, h, t);
    LeastBacklog(jobs, h, g, t);
    ConservingTick(jobs, g, t);
    ConservingTick(jobs, h, t);
  }

  /** The latest finishing time among the first `n` jobs. */
  function MaxFinish(jobs: seq<Job>, g: Chart, n: nat): (m: nat)
    requires n <= |jobs|
    ensures forall i :: 0 <= i < n ==> Finish(jobs, g, i, |g|) <= m
  {
    if n == 0 then 0 else Max(MaxFinish(jobs, g, n - 1), Finish(jobs, g, n - 1, |g|))
  }

  lemma {:induction false} MaxFinishBound(jobs: seq<Job>, g: Chart, n: nat)
    requires n <= |jobs|
    ensures MaxFinish(jobs, g, n) <= |g|
  {
    if n > 0 {
      MaxFinishBound(jobs, g, n - 1);
    }
  }

  /** A trimmed chart is exactly as long as its latest finishing time. */
  lemma ChartLength(jobs: seq<Job>, g: Chart)
    requires Sound(jobs) && Feasible(jobs, g) && Trimmed(g)
    ensures MaxFinish(jobs, g, |jobs|) == |g|
  {
    MaxFinishBound(jobs, g, |jobs|);
    if g != [] {
      var i := At(g, |g| - 1);
      FeasibleTick(jobs, g, |g| - 1);
      FinishIsFirst(jobs, g, i, |g|, |g|);
    }
  }

  /** No feasible schedule ends earlier than a work-conserving one. */
  lemma EarliestEnd(jobs: seq<Job>, g: Chart, h: Chart)
    requires Sound(jobs) && WorkConserving(jobs, g) && Trimmed(g) && Feasible(jobs, h)
    ensures |g| <= |h|
  {
    if g != [] {
      var t := |g| - 1;
      ConservingTick(jobs, g, t);
      FeasibleTick(jobs, g, t);
      SumZeroIff(Backlog(jobs, g, t));
      LeastBacklog(jobs, g, h, t);
      FeasibleTick(jobs, h, t);
      SumZeroIff(Backlog(jobs, h, t));
      if |h| <= t {
        LeftAfterEnd(jobs, h, t);
      }
    }
  }

  /** Hence all policies report the same latest finishing time. */
  lemma SameMakespan(jobs: seq<Job>, g: Chart, h: Chart)
    requires Sound(jobs) && WorkConserving(jobs, g) && WorkConserving(jobs, h) && Trimmed(g) && Trimmed(h)
    ensures MaxFinish(jobs, g, |jobs|) == MaxFinish(jobs, h, |jobs|)
  {
    EarliestEnd(jobs, g, h);
    EarliestEnd(jobs, h, g);
    ChartLength(jobs, g);
    ChartLength(jobs, h);
  }

  // ---------- first come, first served ----------

  ghost predicate SortedByArrival(jobs: seq<Job>)
  {
    forall i, j :: 0 <= i < j < |jobs| ==> jobs[i].arrival <= jobs[j].arrival
  }

  /** In every tick the first unfinished job runs, provided it has arrived. */
  ghost predicate InOrder(jobs: seq<Job>, g: Chart)
  {
    && Feasible(jobs, g)
    && forall t :: 0 <= t < |g| ==> FirstUnfinished(jobs, Left(jobs, g, t), t, g[t])
  }

  ghost predicate FirstUnfinished(jobs: seq<Job>, left: seq<int>, t: int, i: int)
    requires |left| == |jobs|
  {
    if i == -1 then
      forall j :: 0 <= j < |jobs| && jobs[j].arrival <= t ==> left[j] == 0
    else
      && 0 <= i < |jobs| && jobs[i].arrival <= t && left[i] > 0
      && forall j :: 0 <= j < i ==> left[j] == 0
  }

  lemma InOrderConserves(jobs: seq<Job>, g: Chart)
    requires InOrder(jobs, g)
    ensures WorkConserving(jobs, g)
  {
    hide Feasible;
    hide Left;
    forall t | 0 <= t < |g| && g[t] == -1
      ensures AllDone(Backlog(jobs, g, t))
    {
      assert FirstUnfinished(jobs, Left(jobs, g, t), t, g[t]);
    }
  }

  /** When job `i` gets the CPU: on arrival, or when its predecessor is done. */
  function FcfsStart(jobs: seq<Job>, i: nat): (t: int)
    requires i < |jobs|
    decreases i, 0
  {
    Max(jobs[i].arrival, if i == 0 then 0 else FcfsFinish(jobs, i - 1))
  }

  function FcfsFinish(jobs: seq<Job>, i: nat): (t: int)
    requires i < |jobs|
    decreases i, 1
  {
    FcfsStart(jobs, i) + jobs[i].burst
  }

  /** What the recurrence says is left of job `i` at tick `t`. */
  function FcfsLeft(jobs: seq<Job>, i: nat, t: int): (n: int)
    requires i < |jobs|
  {
    if t <= FcfsStart(jobs, i) then jobs[i].burst else Max(0, FcfsFinish(jobs, i) - t)
  }

  lemma {:induction false} FcfsOrder(jobs: seq<Job>, i: nat, j: nat)
    requires Sound(jobs) && i < j < |jobs|
    ensures FcfsFinish(jobs, i) <= FcfsStart(jobs, j)
    ensures 0 <= FcfsStart(jobs, i)
    decreases j
  {
    if i > 0 {
      FcfsOrder(jobs, i - 1, i);
    }
    if i < j - 1 {
      FcfsOrder(jobs, i, j - 1);
    }
  }

  /** One tick of an in-order chart agrees with the recurrence. */
  lemma FcfsTick(jobs: seq<Job>, left: seq<int>, t: nat, r: int, i: nat)
    requires Sound(jobs) && SortedByArrival(jobs) && |left| == |jobs| && i < |jobs|
    requires forall j :: 0 <= j < |jobs| ==> left[j] == FcfsLeft(jobs, j, t)
    requires FirstUnfinished(jobs, left, t, r)
    ensures Run(left, r)[i] == FcfsLeft(jobs, i, t + 1)
  {
    if i > 0 {
      FcfsOrder(jobs, i - 1, i);
      assert left[i - 1] == FcfsLeft(jobs, i - 1, t);
    }
    if r != -1 && r < i {
      FcfsOrder(jobs, r, i);
      assert left[r] == FcfsLeft(jobs, r, t);
    }
    if r != -1 && r > i {
      assert left[i] == 0;
    }
  }

  lemma {:induction false} FcfsLeftAt(jobs: seq<Job>, g: Chart, t: nat, i: nat)
    requires Sound(jobs) && SortedByArrival(jobs) && InOrder(jobs, g) && i < |jobs|
    ensures Left(jobs, g, t)[i] == FcfsLeft(jobs, i, t)
    decreases t
  {
    hide InOrder;
    hide FirstUnfinished;
    if i > 0 {
      FcfsOrder(jobs, i - 1, i);
    }
    if t > 0 {
      hide FcfsLeft;
      var left := Left(jobs, g, t - 1);
      forall j | 0 <= j < |jobs|
        ensures left[j] == FcfsLeft(jobs, j, t - 1)
      {
        FcfsLeftAt(jobs, g, t - 1, j);
      }
      InOrderTick(jobs, g, t - 1);
      FcfsTick(jobs, left, t - 1, At(g, t - 1), i);
    }
  }

  lemma InOrderTick(jobs: seq<Job>, g: Chart, t: nat)
    requires InOrder(jobs, g)
    ensures FirstUnfinished(jobs, Left(jobs, g, t), t, At(g, t))
  {
    if t >= |g| {
      LeftAfterEnd(jobs, g, t);
    }
  }

  lemma InOrderDone(jobs: seq<Job>, g: Chart, i: nat)
    requires InOrder(jobs, g) && i < |jobs|
    ensures Left(jobs, g, |g|)[i] == 0
  {
  }

  lemma FcfsEnds(jobs: seq<Job>, i: nat, t: nat)
    requires Sound(jobs) && i < |jobs|
    ensures var f := FcfsFinish(jobs, i);
            && f >= 1
            && FcfsLeft(jobs, i, f) == 0
            && FcfsLeft(jobs, i, f - 1) > 0
            && (FcfsLeft(jobs, i, t) == 0 ==> f <= t)
  {
    if i > 0 {
      FcfsOrder(jobs, i - 1, i);
    }
  }

  /** FCFS obeys the recurrence start(i) = max(arrival(i), finish(i-1)), finish(i) = start(i) + burst(i). */
  lemma FcfsRecurrence(jobs: seq<Job>, g: Chart, i: nat)
    requires Sound(jobs) && SortedByArrival(jobs) && InOrder(jobs, g) && i < |jobs|
    ensures Finish(jobs, g, i, |g|) == FcfsFinish(jobs, i)
  {
    hide *;
    var f := FcfsFinish(jobs, i);
    InOrderDone(jobs, g, i);
    FcfsEnds(jobs, i, |g|);
    FcfsLeftAt(jobs, g, f, i);
    FcfsLeftAt(jobs, g, f - 1, i);
    FcfsLeftAt(jobs, g, |g|, i);
    FinishIsFirst(jobs, g, i, f, |g|);
  }

  // ---------- shortest job first ----------

  /** `i` is a live job with least burst, or -1 when no job is live. */
  ghost predicate LeastBurst(jobs: seq<Job>, live: seq<int>, i: int)
    requires |live| == |jobs|
  {
    if i == -1 then AllDone(live) else
      && 0 <= i < |jobs| && live[i] > 0
      && forall j :: 0 <= j < |jobs| && live[j] > 0 ==> jobs[i].burst <= jobs[j].burst
  }

  /** In tick `t` the job of the previous tick goes on if it is not done. */
  ghost predicate GoesOn(jobs: seq<Job>, g: Chart, t: nat)
  {
    && 0 < t && 0 <= At(g, t - 1) < |jobs|
    && Left(jobs, g, t)[At(g, t - 1)] > 0
  }

  ghost predicate SjfRule(jobs: seq<Job>, g: Chart, t: nat)
  {
    if GoesOn(jobs, g, t) then At(g, t) == At(g, t - 1) else LeastBurst(jobs, Backlog(jobs, g, t), At(g, t))
  }

  ghost predicate ShortestJobFirst(jobs: seq<Job>, g: Chart)
  {
    && Feasible(jobs, g)
    && forall t :: 0 <= t < |g| ==> SjfRule(jobs, g, t)
  }

  /** Of several live jobs with least burst `i` is the first. */
  ghost predicate FirstLeastBurst(jobs: seq<Job>, live: seq<int>, i: int)
    requires |live| == |jobs|
  {
    LeastBurst(jobs, live, i) && forall j :: 0 <= j < i && live[j] > 0 ==> jobs[i].burst < jobs[j].burst
  }

  ghost predicate FirstSjfRule(jobs: seq<Job>, g: Chart, t: nat)
  {
    if GoesOn(jobs, g, t) then At(g, t) == At(g, t - 1) else FirstLeastBurst(jobs, Backlog(jobs, g, t), At(g, t))
  }

  /** As `ShortestJobFirst`, with ties settled by the order of the table. */
  ghost predicate FirstShortestJob(jobs: seq<Job>, g: Chart)
  {
    && Feasible(jobs, g)
    && forall t :: 0 <= t < |g| ==> FirstSjfRule(jobs, g, t)
  }

  lemma FirstShortestJobIsSjf(jobs: seq<Job>, g: Chart)
    requires FirstShortestJob(jobs, g)
    ensures ShortestJobFirst(jobs, g)
  {
    hide Feasible, GoesOn, Backlog, LeastBurst;
    forall t | 0 <= t < |g|
      ensures SjfRule(jobs, g, t)
    {
      assert FirstSjfRule(jobs, g, t);
    }
  }

  lemma SjfTick(jobs: seq<Job>, g: Chart, t: nat)
    requires ShortestJobFirst(jobs, g)
    ensures if GoesOn(jobs, g, t) then At(g, t) == At(g, t - 1)
            else LeastBurst(jobs, Backlog(jobs, g, t), At(g, t))
  {
    if t >= |g| {
      LeftAfterEnd(jobs, g, t);
    } else {
      assert SjfRule(jobs, g, t);
    }
  }

  lemma SjfConserves(jobs: seq<Job>, g: Chart)
    requires ShortestJobFirst(jobs, g)
    ensures WorkConserving(jobs, g)
  {
    hide Feasible;
    hide Backlog;
    forall t | 0 <= t < |g| && g[t] == -1
      ensures AllDone(Backlog(jobs, g, t))
    {
      SjfTick(jobs, g, t);
    }
  }

  /** The only job that is begun but not done is the one of the previous tick. */
  lemma {:induction false} BegunIsRunning(jobs: seq<Job>, g: Chart, t: nat, j: nat)
    requires ShortestJobFirst(jobs, g) && j < |jobs|
    requires 0 < Left(jobs, g, t)[j] < jobs[j].burst
    ensures t > 0 && At(g, t - 1) == j
  {
    hide ShortestJobFirst;
    hide Backlog;
    hide LeastBurst;
    if t > 0 && At(g, t - 1) != j {
      BegunIsRunning(jobs, g, t - 1, j);
      SjfTick(jobs, g, t - 1);
    }
  }

  /** For jobs that arrive together, shortest job first always runs a job with least remaining time. */
  lemma {:induction false} SjfIsShortest(jobs: seq<Job>, g: Chart, a: int, t: nat)
    requires Sound(jobs) && ShortestJobFirst(jobs, g)
    requires forall i :: 0 <= i < |jobs| ==> jobs[i].arrival == a
    ensures ShortestOf(Backlog(jobs, g, t), At(g, t))
  {
    FeasibleTick(jobs, g, t);
    hide Feasible;
    SjfTick(jobs, g, t);
    if GoesOn(jobs, g, t) {
      SjfIsShortest(jobs, g, a, t - 1);
      FeasibleTick(jobs, g, t - 1);
    } else if At(g, t) != -1 {
      var i := At(g, t);
      forall j | 0 <= j < |jobs| && Backlog(jobs, g, t)[j] > 0
        ensures Left(jobs, g, t)[j] == jobs[j].burst
      {
        UntouchedOrBegun(jobs, g, t, j);
      }
    }
  }

  lemma UntouchedOrBegun(jobs: seq<Job>, g: Chart, t: nat, j: nat)
    requires ShortestJobFirst(jobs, g) && j < |jobs| && Left(jobs, g, t)[j] > 0 && !GoesOn(jobs, g, t)
    ensures Left(jobs, g, t)[j] == jobs[j].burst
  {
    hide ShortestJobFirst;
    LeftDecreases(jobs, g, 0, t, j);
    if Left(jobs, g, t)[j] < jobs[j].burst {
      BegunIsRunning(jobs, g, t, j);
    }
  }

  ghost predicate Together(jobs: seq<Job>, a: int)
  {
    forall i :: 0 <= i < |jobs| ==> jobs[i].arrival == a
  }

  /** The time each job spends neither running nor still to come. */
  function Waitings(jobs: seq<Job>, g: Chart): (r: seq<int>)
    ensures |r| == |jobs|
    ensures forall i :: 0 <= i < |jobs| ==> r[i] == Finish(jobs, g, i, |g|) - jobs[i].arrival - jobs[i].burst
  {
    seq(|jobs|, i requires 0 <= i < |jobs| => Finish(jobs, g, i, |g|) - jobs[i].arrival - jobs[i].burst)
  }

  /** Total waiting and total turnaround differ by the work there is, whatever the schedule. */
  lemma WaitingIsTurnaround(jobs: seq<Job>, g: Chart)
    ensures Sum(Waitings(jobs, g)) == Sum(Turnarounds(jobs, g)) - Sum(Bursts(jobs))
  {
    hide Finish;
    SumDifference(Turnarounds(jobs, g), Bursts(jobs), Waitings(jobs, g));
  }

  /** With equal arrivals SJF minimises the total turnaround and the total waiting over all schedules. */
  lemma SjfOptimalTogether(jobs: seq<Job>, g: Chart, h: Chart, a: int)
    requires Sound(jobs) && ShortestJobFirst(jobs, g) && Feasible(jobs, h)
    requires Together(jobs, a)
    ensures Sum(Turnarounds(jobs, g)) <= Sum(Turnarounds(jobs, h))
    ensures Sum(Waitings(jobs, g)) <= Sum(Waitings(jobs, h))
  {
    assert ShortestFirst(jobs, g) by {
      forall t | 0 <= t < |g|
        ensures ShortestOf(Backlog(jobs, g, t), At(g, t))
      {
        SjfIsShortest(jobs, g, a, t);
      }
    }
    SrtfIsOptimal(jobs, g, h);
    WaitingIsTurnaround(jobs, g);
    WaitingIsTurnaround(jobs, h);
  }
}
