/**
 Tick-by-tick schedules of jobs on one CPU: what a Gantt chart leaves undone at each tick,
 which charts are feasible, and when each job finishes.
 */
module Schedule {

  datatype Job = Job(pid: int, arrival: int, burst: int)

  /** A Gantt chart: the index of the job that runs in each tick, or -1 when the CPU is idle. */
  type Chart = seq<int>

  ghost predicate Sound(jobs: seq<Job>)
  {
    forall i :: 0 <= i < |jobs| ==> jobs[i].burst >= 1
  }

  function Bursts(jobs: seq<Job>): (r: seq<int>)
    ensures |r| == |jobs| && forall i :: 0 <= i < |jobs| ==> r[i] == jobs[i].burst
  {
    seq(|jobs|, i requires 0 <= i < |jobs| => jobs[i].burst)
  }

  /** What runs in tick `t`; nothing does once the chart is over. */
  function At(g: Chart, t: nat): (i: int)
  {
    if t < |g| then g[t] else -1
  }

  function Run(left: seq<int>, i: int): (r: seq<int>)
    ensures |r| == |left|
  {
    if 0 <= i < |left| then left[i := left[i] - 1] else left
  }

  /** The time each job still needs after the first `t` ticks. */
  function Left(jobs: seq<Job>, g: Chart, t: nat): (r: seq<int>)
    ensures |r| == |jobs|
  {
    if t == 0 then Bursts(jobs) else Run(Left(jobs, g, t - 1), At(g, t - 1))
  }

  /** In tick `t` the CPU idles or runs a job that has arrived and is not done. */
  ghost predicate FeasibleAt(jobs: seq<Job>, g: Chart, t: nat)
  {
    var i := At(g, t);
    i == -1 || (0 <= i < |jobs| && jobs[i].arrival <= t && Left(jobs, g, t)[i] > 0)
  }

  /** Any preemptive schedule whatsoever that runs every job to its end. */
  ghost predicate Feasible(jobs: seq<Job>, g: Chart)
  {
    && (forall t :: 0 <= t < |g| ==> FeasibleAt(jobs, g, t))
    && (forall i :: 0 <= i < |jobs| ==> Left(jobs, g, |g|)[i] == 0)
  }

  /** The work of the jobs that have arrived by tick `t`; jobs yet to come count as zero. */
  function Live(jobs: seq<Job>, left: seq<int>, t: int): (r: seq<int>)
    requires |left| == |jobs|
    ensures |r| == |jobs|
    ensures forall i :: 0 <= i < |jobs| ==> r[i] == if jobs[i].arrival <= t then left[i] else 0
  {
    seq(|jobs|, i requires 0 <= i < |jobs| => if jobs[i].arrival <= t then left[i] else 0)
  }

  ghost function Backlog(jobs: seq<Job>, g: Chart, t: nat): (r: seq<int>)
    ensures |r| == |jobs|
  {
    Live(jobs, Left(jobs, g, t), t)
  }

  ghost predicate NonNegative(r: seq<int>)
  {
    forall i :: 0 <= i < |r| ==> r[i] >= 0
  }

  function Sum(r: seq<int>): (n: int)
  {
    if r == [] then 0 else Sum(r[..|r| - 1]) + r[|r| - 1]
  }

  /** How many entries are still positive. */
  function Positives(r: seq<int>): (n: nat)
    ensures n <= |r|
  {
    if r == [] then 0 else Positives(r[..|r| - 1]) + if r[|r| - 1] > 0 then 1 else 0
  }

  /** The tick by which job `i` is done: in how many ticks it was still unfinished. */
  function Finish(jobs: seq<Job>, g: Chart, i: nat, horizon: nat): (n: nat)
    requires i < |jobs|
    ensures n <= horizon
  {
    if horizon == 0 then 0 else
      Finish(jobs, g, i, horizon - 1) + if Left(jobs, g, horizon - 1)[i] > 0 then 1 else 0
  }

  function Turnarounds(jobs: seq<Job>, g: Chart): (r: seq<int>)
    ensures |r| == |jobs|
    ensures forall i :: 0 <= i < |jobs| ==> r[i] == Finish(jobs, g, i, |g|) - jobs[i].arrival
  {
    seq(|jobs|, i requires 0 <= i < |jobs| => Finish(jobs, g, i, |g|) - jobs[i].arrival)
  }

  // ---------- basic facts ----------

  /** A feasible chart never overruns a job. */
  lemma {:induction false} LeftNonNegative(jobs: seq<Job>, g: Chart, t: nat)
    requires Sound(jobs) && forall u :: 0 <= u < |g| ==> FeasibleAt(jobs, g, u)
    ensures NonNegative(Left(jobs, g, t))
  {
    if t > 0 {
      LeftNonNegative(jobs, g, t - 1);
      if t - 1 < |g| {
        assert FeasibleAt(jobs, g, t - 1);
      }
    }
  }

  /** Once the chart is over nothing changes. */
  lemma {:induction false} LeftAfterEnd(jobs: seq<Job>, g: Chart, t: nat)
    requires t >= |g|
    ensures Left(jobs, g, t) == Left(jobs, g, |g|)
  {
    if t > |g| {
      LeftAfterEnd(jobs, g, t - 1);
    }
  }

  lemma {:induction false} LeftDecreases(jobs: seq<Job>, g: Chart, t: nat, u: nat, i: nat)
    requires t <= u && i < |jobs|
    ensures Left(jobs, g, u)[i] <= Left(jobs, g, t)[i]
    decreases u
  {
    if t < u {
      LeftDecreases(jobs, g, t, u - 1, i);
    }
  }

  /** A job that has not arrived is untouched. */
  lemma {:induction false} NotArrivedUntouched(jobs: seq<Job>, g: Chart, t: nat, i: nat)
    requires i < |jobs| && (forall u :: 0 <= u < |g| ==> FeasibleAt(jobs, g, u))
    requires jobs[i].arrival >= t
    ensures Left(jobs, g, t)[i] == jobs[i].burst
  {
    if t > 0 {
      NotArrivedUntouched(jobs, g, t - 1, i);
      if t - 1 < |g| {
        assert FeasibleAt(jobs, g, t - 1);
      }
    }
  }

  /** `Finish` is the first tick at which nothing is left, and not a mere count. */
  lemma {:induction false} FinishIsFirst(jobs: seq<Job>, g: Chart, i: nat, f: nat, horizon: nat)
    requires i < |jobs| && f <= horizon && Left(jobs, g, f)[i] <= 0
    requires f == 0 || Left(jobs, g, f - 1)[i] > 0
    ensures Finish(jobs, g, i, horizon) == f
  {
    if horizon > 0 {
      if f == horizon {
        FinishAll(jobs, g, i, f);
      } else {
        LeftDecreases(jobs, g, f, horizon - 1, i);
        FinishIsFirst(jobs, g, i, f, horizon - 1);
      }
    }
  }

  lemma {:induction false} FinishAll(jobs: seq<Job>, g: Chart, i: nat, f: nat)
    requires i < |jobs| && (f == 0 || Left(jobs, g, f - 1)[i] > 0)
    ensures Finish(jobs, g, i, f) == f
  {
    if f > 1 {
      LeftDecreases(jobs, g, f - 2, f - 1, i);
      FinishAll(jobs, g, i, f - 1);
    }
  }

  /** Extending a chart does not change what its ticks leave. */
  lemma {:induction false} LeftPrefix(jobs: seq<Job>, g: Chart, h: Chart, t: nat)
    requires g <= h && t <= |g|
    ensures Left(jobs, h, t) == Left(jobs, g, t)
  {
    if t > 0 {
      LeftPrefix(jobs, g, h, t - 1);
    }
  }

  /** Total finishing time, counted job by job or tick by tick. */
  lemma {:induction false} SumByTick(jobs: seq<Job>, g: Chart, horizon: nat)
    ensures Sum(seq(|jobs|, i requires 0 <= i < |jobs| => Finish(jobs, g, i, horizon)))
            == PendingTicks(jobs, g, horizon)
  {
    var f := seq(|jobs|, i requires 0 <= i < |jobs| => Finish(jobs, g, i, horizon));
    if horizon == 0 {
      SumZero(f);
    } else {
      SumByTick(jobs, g, horizon - 1);
      var f' := seq(|jobs|, i requires 0 <= i < |jobs| => Finish(jobs, g, i, horizon - 1));
      SumStep(f', f, Left(jobs, g, horizon - 1));
    }
  }

  /** The number of (job, tick) pairs in which the job was unfinished. */
  function PendingTicks(jobs: seq<Job>, g: Chart, horizon: nat): (n: nat)
  {
    if horizon == 0 then 0 else
      PendingTicks(jobs, g, horizon - 1) + Positives(Left(jobs, g, horizon - 1))
  }

  lemma {:induction false} SumZero(f: seq<int>)
    requires forall i :: 0 <= i < |f| ==> f[i] == 0
    ensures Sum(f) == 0
  {
    if f != [] {
      SumZero(f[..|f| - 1]);
    }
  }

  lemma {:induction false} SumStep(f: seq<int>, f': seq<int>, left: seq<int>)
    requires |f| == |f'| == |left|
    requires forall i :: 0 <= i < |f| ==> f'[i] == f[i] + if left[i] > 0 then 1 else 0
    ensures Sum(f') == Sum(f) + Positives(left)
  {
    if f != [] {
      var n := |f| - 1;
      SumStep(f[..n], f'[..n], left[..n]);
    }
  }

  lemma {:induction false} SumDifference(a: seq<int>, b: seq<int>, c: seq<int>)
    requires |a| == |b| == |c| && forall i :: 0 <= i < |a| ==> c[i] == a[i] - b[i]
    ensures Sum(c) == Sum(a) - Sum(b)
  {
    if a != [] {
      var n := |a| - 1;
      SumDifference(a[..n], b[..n], c[..n]);
    }
  }
}
