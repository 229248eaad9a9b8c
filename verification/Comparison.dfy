/**
 The four policies on one job list: which ticks are busy, how much work is left, when all is done, whose total
 turnaround is least, and when round robin is FCFS. FCFS lists the jobs in another order after its sort, so its
 charts are relabelled first.
 */
module Comparison {
  import opened Schedule
  import opened Srtf
  import opened Policies
  import opened Counting
  import Fcfs
  import RR = RoundRobin
  import Runs = RoundRobinRuns

  /** `jobs'` lists `jobs` in the order `perm`. */
  ghost predicate Reordered(jobs: seq<Job>, jobs': seq<Job>, perm: seq<nat>)
  {
    && |jobs'| == |jobs| && IsPermutation(perm, |jobs|)
    && forall j :: 0 <= j < |jobs| ==> jobs'[j] == jobs[perm[j]]
  }

  /** The same chart with the original job numbers. */
  function Relabel(g: Chart, perm: seq<nat>): (r: Chart)
    ensures |r| == |g|
    ensures forall t :: 0 <= t < |g| ==> r[t] == if 0 <= g[t] < |perm| then perm[g[t]] as int else -1
  {
    seq(|g|, t requires 0 <= t < |g| => if 0 <= g[t] < |perm| then perm[g[t]] as int else -1)
  }

  lemma {:induction false} RelabelLeft(jobs: seq<Job>, jobs': seq<Job>, perm: seq<nat>, g: Chart, t: nat, j: nat)
    requires Reordered(jobs, jobs', perm) && j < |jobs|
    requires forall u :: 0 <= u < |g| ==> -1 <= g[u] < |jobs|
    ensures Left(jobs, Relabel(g, perm), t)[perm[j]] == Left(jobs', g, t)[j]
  {
    if t > 0 {
      RelabelLeft(jobs, jobs', perm, g, t - 1, j);
      if t - 1 < |g| && g[t - 1] != -1 && g[t - 1] != j {
        var i := g[t - 1];
        assert perm[i] != perm[j];
      }
    }
  }

  /** A permutation of `n + 1` values with the largest one taken out. */
  lemma TakeLargest(perm: seq<nat>, n: nat, j: nat)
    requires IsPermutation(perm, n + 1) && j <= n && perm[j] == n
    ensures IsPermutation(perm[j := perm[n]][..n], n)
  {
    var r := perm[j := perm[n]][..n];
    forall i | 0 <= i < n
      ensures r[i] < n
    {
      assert perm[n] != n || j == n;
    }
  }

  /** A sum does not depend on the order of its terms. */
  lemma {:induction false} SumReordered(f: seq<int>, f': seq<int>, perm: seq<nat>)
    requires IsPermutation(perm, |f|) && |f'| == |f|
    requires forall j :: 0 <= j < |f| ==> f'[j] == f[perm[j]]
    ensures Sum(f') == Sum(f)
    decreases |f|
  {
    if f != [] {
      var n := |f| - 1;
      var j := Onto(perm, n + 1, n);
      TakeLargest(perm, n, j);
      hide IsPermutation;
      var moved := f'[j := f'[n]];
      SumReordered(f[..n], moved[..n], perm[j := perm[n]][..n]);
      SumUpdate(f', j, f'[n]);
      assert moved[n] == f'[n];
    }
  }

  lemma RelabelFeasible(jobs: seq<Job>, jobs': seq<Job>, perm: seq<nat>, g: Chart)
    requires Reordered(jobs, jobs', perm) && Feasible(jobs', g)
    ensures Feasible(jobs, Relabel(g, perm))
  {
    InRange(jobs', g);
    var h := Relabel(g, perm);
    hide Left;
    forall t | 0 <= t < |h|
      ensures FeasibleAt(jobs, h, t)
    {
      assert FeasibleAt(jobs', g, t);
      if g[t] != -1 {
        RelabelLeft(jobs, jobs', perm, g, t, g[t]);
      }
    }
    forall i | 0 <= i < |jobs|
      ensures Left(jobs, h, |h|)[i] == 0
    {
      var j := Onto(perm, |jobs|, i);
      RelabelLeft(jobs, jobs', perm, g, |g|, j);
    }
  }

  lemma InRange(jobs: seq<Job>, g: Chart)
    requires Feasible(jobs, g)
    ensures forall u :: 0 <= u < |g| ==> -1 <= g[u] < |jobs|
  {
    forall u | 0 <= u < |g|
      ensures -1 <= g[u] < |jobs|
    {
      assert FeasibleAt(jobs, g, u);
    }
  }

  lemma {:induction false} RelabelFinish(jobs: seq<Job>, jobs': seq<Job>, perm: seq<nat>, g: Chart,
                                         j: nat, horizon: nat)
    requires Reordered(jobs, jobs', perm) && j < |jobs|
    requires forall u :: 0 <= u < |g| ==> -1 <= g[u] < |jobs|
    ensures Finish(jobs, Relabel(g, perm), perm[j], horizon) == Finish(jobs', g, j, horizon)
  {
    if horizon > 0 {
      RelabelFinish(jobs, jobs', perm, g, j, horizon - 1);
      RelabelLeft(jobs, jobs', perm, g, horizon - 1, j);
    }
  }

  /** Relabelling moves turnaround times around but keeps their total. */
  lemma RelabelTotal(jobs: seq<Job>, jobs': seq<Job>, perm: seq<nat>, g: Chart)
    requires Reordered(jobs, jobs', perm) && Feasible(jobs', g)
    ensures Sum(Turnarounds(jobs, Relabel(g, perm))) == Sum(Turnarounds(jobs', g))
  {
    InRange(jobs', g);
    var f, f' := Turnarounds(jobs, Relabel(g, perm)), Turnarounds(jobs', g);
    hide Finish;
    forall j | 0 <= j < |jobs|
      ensures f'[j] == f[perm[j]]
    {
      RelabelFinish(jobs, jobs', perm, g, j, |g|);
    }
    SumReordered(f, f', perm);
  }

  /** SRTF's total turnaround is at most that of any schedule of the same jobs, in whatever order they are listed. */
  lemma SrtfBeatsReordered(jobs: seq<Job>, jobs': seq<Job>, perm: seq<nat>, g: Chart, h: Chart)
    requires Sound(jobs) && Reordered(jobs, jobs', perm)
    requires ShortestFirst(jobs, g) && Feasible(jobs', h)
    ensures Sum(Turnarounds(jobs, g)) <= Sum(Turnarounds(jobs', h))
  {
    hide ShortestFirst;
    RelabelFeasible(jobs, jobs', perm, h);
    RelabelTotal(jobs, jobs', perm, h);
    SrtfIsOptimal(jobs, g, Relabel(h, perm));
  }

  lemma RelabelConserves(jobs: seq<Job>, jobs': seq<Job>, perm: seq<nat>, g: Chart)
    requires Reordered(jobs, jobs', perm) && WorkConserving(jobs', g)
    ensures WorkConserving(jobs, Relabel(g, perm))
    ensures Trimmed(g) ==> Trimmed(Relabel(g, perm))
  {
    hide Feasible, Backlog, AllDone, Reordered;
    InRange(jobs', g);
    RelabelFeasible(jobs, jobs', perm, g);
    var h := Relabel(g, perm);
    forall t | 0 <= t < |h| && h[t] == -1
      ensures AllDone(Backlog(jobs, h, t))
    {
      RelabelAt(jobs, jobs', perm, g, t);
      RelabelIdle(jobs, jobs', perm, g, t);
    }
    if g != [] {
      RelabelAt(jobs, jobs', perm, g, |g| - 1);
    }
  }

  lemma RelabelIdle(jobs: seq<Job>, jobs': seq<Job>, perm: seq<nat>, g: Chart, t: nat)
    requires Reordered(jobs, jobs', perm) && AllDone(Backlog(jobs', g, t))
    requires forall u :: 0 <= u < |g| ==> -1 <= g[u] < |jobs'|
    ensures AllDone(Backlog(jobs, Relabel(g, perm), t))
  {
    hide Left;
    forall i | 0 <= i < |jobs|
      ensures Backlog(jobs, Relabel(g, perm), t)[i] == 0
    {
      var j := Onto(perm, |jobs|, i);
      RelabelLeft(jobs, jobs', perm, g, t, j);
      assert Backlog(jobs', g, t)[j] == 0;
    }
  }

  /**
   The four simulations of one job list: the CPU is busy in the same ticks, all report the same latest finish,
   and none has a smaller total turnaround than SRTF.
   */
  lemma FourPoliciesAgree(jobs: seq<Job>, sorted: seq<Job>, perm: seq<nat>, quantum: nat,
                          fcfs: Chart, sjf: Chart, srtf: Chart, rr: Chart)
    requires Sound(jobs) && Reordered(jobs, sorted, perm) && RR.Startable(jobs, quantum)
    requires InOrder(sorted, fcfs) && ShortestJobFirst(jobs, sjf) && ShortestFirst(jobs, srtf)
    requires RR.RoundRobinChart(jobs, quantum, rr)
    requires Trimmed(fcfs) && Trimmed(sjf) && Trimmed(srtf) && Trimmed(rr)
    ensures MaxFinish(sorted, fcfs, |jobs|) == MaxFinish(jobs, sjf, |jobs|)
            == MaxFinish(jobs, srtf, |jobs|) == MaxFinish(jobs, rr, |jobs|)
    ensures forall t: nat :: (At(fcfs, t) == -1) == (At(sjf, t) == -1) == (At(srtf, t) == -1) == (At(rr, t) == -1)
    ensures Sum(Turnarounds(jobs, srtf)) <= Sum(Turnarounds(sorted, fcfs))
    ensures Sum(Turnarounds(jobs, srtf)) <= Sum(Turnarounds(jobs, sjf))
    ensures Sum(Turnarounds(jobs, srtf)) <= Sum(Turnarounds(jobs, rr))
  {
    var fcfs' := Relabel(fcfs, perm);
    ConservingFacts(jobs, sorted, perm, quantum, fcfs, sjf, srtf, rr);
    ReorderedSound(jobs, sorted, perm);
    hide Feasible, InOrder, ShortestJobFirst, ShortestFirst, RR.RoundRobinChart, Sound;
    SameLength(jobs, srtf, fcfs');
    SameLength(jobs, srtf, sjf);
    SameLength(jobs, srtf, rr);
    ChartLength(sorted, fcfs);
    ChartLength(jobs, sjf);
    ChartLength(jobs, srtf);
    ChartLength(jobs, rr);
    SrtfBeatsReordered(jobs, sorted, perm, srtf, fcfs);
    SrtfIsOptimal(jobs, srtf, sjf);
    SrtfIsOptimal(jobs, srtf, rr);
    forall t: nat
      ensures (At(fcfs, t) == -1) == (At(sjf, t) == -1) == (At(srtf, t) == -1) == (At(rr, t) == -1)
    {
      SameWork(jobs, srtf, fcfs', t);
      SameWork(jobs, srtf, sjf, t);
      SameWork(jobs, srtf, rr, t);
      RelabelAt(jobs, sorted, perm, fcfs, t);
    }
  }

  lemma RelabelBacklog(jobs: seq<Job>, jobs': seq<Job>, perm: seq<nat>, g: Chart, t: nat)
    requires Reordered(jobs, jobs', perm) && Feasible(jobs', g)
    ensures Sum(Backlog(jobs', g, t)) == Sum(Backlog(jobs, Relabel(g, perm), t))
  {
    InRange(jobs', g);
    var f, f' := Backlog(jobs, Relabel(g, perm), t), Backlog(jobs', g, t);
    hide Left;
    forall j | 0 <= j < |jobs|
      ensures f'[j] == f[perm[j]]
    {
      RelabelLeft(jobs, jobs', perm, g, t, j);
    }
    SumReordered(f, f', perm);
  }

  /** At every tick all four have the same total work left of the processes that have arrived. */
  lemma FourPoliciesWork(jobs: seq<Job>, sorted: seq<Job>, perm: seq<nat>, quantum: nat,
                         fcfs: Chart, sjf: Chart, srtf: Chart, rr: Chart, t: nat)
    requires Sound(jobs) && Reordered(jobs, sorted, perm) && RR.Startable(jobs, quantum)
    requires InOrder(sorted, fcfs) && ShortestJobFirst(jobs, sjf) && ShortestFirst(jobs, srtf)
    requires RR.RoundRobinChart(jobs, quantum, rr) && Trimmed(fcfs)
    ensures Sum(Backlog(sorted, fcfs, t)) == Sum(Backlog(jobs, sjf, t))
            == Sum(Backlog(jobs, srtf, t)) == Sum(Backlog(jobs, rr, t))
  {
    ConservingFacts(jobs, sorted, perm, quantum, fcfs, sjf, srtf, rr);
    hide Feasible, InOrder, ShortestJobFirst, ShortestFirst, RR.RoundRobinChart, Sound, Backlog, Sum, Relabel;
    RelabelBacklog(jobs, sorted, perm, fcfs, t);
    SameWork(jobs, srtf, Relabel(fcfs, perm), t);
    SameWork(jobs, srtf, sjf, t);
    SameWork(jobs, srtf, rr, t);
  }

  lemma RelabelAt(jobs: seq<Job>, jobs': seq<Job>, perm: seq<nat>, g: Chart, t: nat)
    requires Reordered(jobs, jobs', perm) && Feasible(jobs', g)
    ensures At(Relabel(g, perm), t) == -1 <==> At(g, t) == -1
  {
    InRange(jobs', g);
  }

  lemma ReorderedSound(jobs: seq<Job>, jobs': seq<Job>, perm: seq<nat>)
    requires Sound(jobs) && Reordered(jobs, jobs', perm)
    ensures Sound(jobs') && |jobs'| == |jobs|
  {
  }

  lemma SameLength(jobs: seq<Job>, g: Chart, h: Chart)
    requires Sound(jobs) && WorkConserving(jobs, g) && WorkConserving(jobs, h) && Trimmed(g) && Trimmed(h)
    ensures |g| == |h|
  {
    hide Feasible;
    EarliestEnd(jobs, g, h);
    EarliestEnd(jobs, h, g);
  }

  lemma ConservingFacts(jobs: seq<Job>, sorted: seq<Job>, perm: seq<nat>, quantum: nat,
                        fcfs: Chart, sjf: Chart, srtf: Chart, rr: Chart)
    requires Sound(jobs) && Reordered(jobs, sorted, perm) && RR.Startable(jobs, quantum)
    requires InOrder(sorted, fcfs) && ShortestJobFirst(jobs, sjf) && ShortestFirst(jobs, srtf)
    requires RR.RoundRobinChart(jobs, quantum, rr) && Trimmed(fcfs)
    ensures WorkConserving(jobs, Relabel(fcfs, perm)) && Trimmed(Relabel(fcfs, perm)) && |Relabel(fcfs, perm)| == |fcfs|
    ensures WorkConserving(jobs, sjf) && WorkConserving(jobs, srtf) && WorkConserving(jobs, rr)
    ensures Feasible(sorted, fcfs) && Feasible(jobs, sjf) && Feasible(jobs, srtf) && Feasible(jobs, rr)
  {
    assert Feasible(sorted, fcfs) && Feasible(jobs, sjf) && Feasible(jobs, srtf);
    RR.RoundRobinFeasible(jobs, quantum, rr);
    hide Feasible, FirstUnfinished, SjfRule, ShortestOf;
    InOrderConserves(sorted, fcfs);
    RelabelConserves(jobs, sorted, perm, fcfs);
    SjfConserves(jobs, sjf);
    ShortestFirstConserves(jobs, srtf);
    RR.RoundRobinConserves(jobs, quantum, rr);
  }

  // ---------- first come, first served ----------

  /** FCFS, with the jobs back under their own numbers, gives every tick to the first live job in order of arrival. */
  lemma FcfsIsFirstCome(jobs: seq<Job>, sorted: seq<Job>, perm: seq<nat>, g: Chart, t: nat)
    requires Reordered(jobs, sorted, perm) && SortedByArrival(sorted) && Fcfs.StablyOrdered(sorted, perm)
    requires InOrder(sorted, g) && t < |g|
    ensures Runs.FirstCome(jobs, Backlog(jobs, Relabel(g, perm), t), Relabel(g, perm)[t])
  {
    InRange(sorted, g);
    var h, i := Relabel(g, perm), g[t];
    assert FirstUnfinished(sorted, Left(sorted, g, t), t, i);
    var live := Backlog(jobs, h, t);
    hide Left, InOrder, Feasible, SortedByArrival, Fcfs.StablyOrdered, FirstUnfinished, Backlog, Runs.Precedes;
    forall x | 0 <= x < |jobs|
      ensures i == -1 ==> live[x] == 0
      ensures i != -1 ==> perm[i] < |jobs| && live[perm[i]] > 0
      ensures i != -1 && x != perm[i] && live[x] > 0 ==> Runs.Precedes(jobs, perm[i], x)
    {
      var j := Onto(perm, |jobs|, x);
      FirstComeRow(jobs, sorted, perm, g, t, j);
    }
  }

  lemma FirstComeRow(jobs: seq<Job>, sorted: seq<Job>, perm: seq<nat>, g: Chart, t: nat, j: nat)
    requires Reordered(jobs, sorted, perm) && SortedByArrival(sorted) && Fcfs.StablyOrdered(sorted, perm)
    requires t < |g| && (forall u :: 0 <= u < |g| ==> -1 <= g[u] < |jobs|) && j < |jobs|
    requires FirstUnfinished(sorted, Left(sorted, g, t), t, g[t])
    ensures var live, i := Backlog(jobs, Relabel(g, perm), t), g[t];
            && perm[j] < |jobs|
            && (i == -1 ==> live[perm[j]] == 0)
            && (i != -1 ==> perm[i] < |jobs| && live[perm[i]] > 0)
            && (i != -1 && perm[j] != perm[i] && live[perm[j]] > 0 ==> Runs.Precedes(jobs, perm[i], perm[j]))
  {
    hide *;
    PermInRange(jobs, sorted, perm, j);
    RelabelLeft(jobs, sorted, perm, g, t, j);
    FirstUnfinishedRange(sorted, Left(sorted, g, t), t, g[t]);
    if g[t] != -1 {
      PermInRange(jobs, sorted, perm, g[t]);
      RelabelLeft(jobs, sorted, perm, g, t, g[t]);
    }
    BacklogIs(jobs, Relabel(g, perm), t);
    FirstRow(jobs, sorted, perm, Left(jobs, Relabel(g, perm), t), Left(sorted, g, t), t, g[t], j);
  }

  lemma BacklogIs(jobs: seq<Job>, g: Chart, t: nat)
    ensures Backlog(jobs, g, t) == Live(jobs, Left(jobs, g, t), t)
  {
  }

  lemma FirstUnfinishedRange(jobs: seq<Job>, left: seq<int>, t: int, i: int)
    requires |left| == |jobs| && FirstUnfinished(jobs, left, t, i)
    ensures -1 <= i < |jobs|
  {
  }

  lemma PermInRange(jobs: seq<Job>, sorted: seq<Job>, perm: seq<nat>, j: nat)
    requires Reordered(jobs, sorted, perm) && j < |jobs|
    ensures |perm| == |sorted| == |jobs| && perm[j] < |jobs|
  {
  }

  /** The first unfinished job of the sorted list precedes every other live one in the original list. */
  lemma FirstRow(jobs: seq<Job>, sorted: seq<Job>, perm: seq<nat>, left: seq<int>, left': seq<int>,
                 t: int, i: int, j: nat)
    requires Reordered(jobs, sorted, perm) && SortedByArrival(sorted) && Fcfs.StablyOrdered(sorted, perm)
    requires |left| == |left'| == |jobs| && j < |jobs| && FirstUnfinished(sorted, left', t, i)
    requires left[perm[j]] == left'[j] && (0 <= i < |jobs| ==> left[perm[i]] == left'[i])
    ensures var live := Live(jobs, left, t);
            && (i == -1 ==> live[perm[j]] == 0)
            && (i != -1 ==> live[perm[i]] > 0)
            && (i != -1 && perm[j] != perm[i] && live[perm[j]] > 0 ==> Runs.Precedes(jobs, perm[i], perm[j]))
  {
    assert perm[j] < |jobs| && jobs[perm[j]] == sorted[j];
    if i != -1 {
      assert perm[i] < |jobs| && jobs[perm[i]] == sorted[i];
    }
    hide IsPermutation;
  }

  ghost predicate AllFirstCome(jobs: seq<Job>, g: Chart)
  {
    forall t :: 0 <= t < |g| ==> Runs.FirstCome(jobs, Backlog(jobs, g, t), g[t])
  }

  lemma FirstComeUnique(jobs: seq<Job>, live: seq<int>, i: int, j: int)
    requires |live| == |jobs| && Runs.FirstCome(jobs, live, i) && Runs.FirstCome(jobs, live, j)
    ensures i == j
  {
  }

  /** The rule leaves no choice. */
  lemma {:induction false} SameChart(jobs: seq<Job>, g: Chart, h: Chart, t: nat)
    requires |g| == |h| && AllFirstCome(jobs, g) && AllFirstCome(jobs, h) && t <= |g|
    ensures g[..t] == h[..t]
  {
    hide *;
    if t > 0 {
      SameChart(jobs, g, h, t - 1);
      SamePast(jobs, g, h, t - 1);
      FirstComeAt(jobs, g, t - 1);
      FirstComeAt(jobs, h, t - 1);
      FirstComeUnique(jobs, Backlog(jobs, g, t - 1), g[t - 1], h[t - 1]);
      assert g[..t] == g[..t - 1] + [g[t - 1]] && h[..t] == h[..t - 1] + [h[t - 1]];
    }
  }

  lemma FirstComeAt(jobs: seq<Job>, g: Chart, t: nat)
    requires AllFirstCome(jobs, g) && t < |g|
    ensures Runs.FirstCome(jobs, Backlog(jobs, g, t), g[t])
  {
  }

  lemma SamePast(jobs: seq<Job>, g: Chart, h: Chart, t: nat)
    requires t <= |g| == |h| && g[..t] == h[..t]
    ensures Backlog(jobs, g, t) == Backlog(jobs, h, t)
  {
    LeftPrefix(jobs, g[..t], g, t);
    LeftPrefix(jobs, h[..t], h, t);
    hide Left;
  }

  /** Round robin with a slice that never runs out draws the very chart of FCFS. */
  lemma NeverOutIsFcfs(jobs: seq<Job>, sorted: seq<Job>, perm: seq<nat>, quantum: nat, fcfs: Chart, rr: Chart)
    requires Sound(jobs) && Reordered(jobs, sorted, perm) && RR.Startable(jobs, quantum)
    requires SortedByArrival(sorted) && Fcfs.StablyOrdered(sorted, perm) && InOrder(sorted, fcfs)
    requires RR.RoundRobinChart(jobs, quantum, rr) && Runs.NeverOut(jobs, quantum) && Trimmed(fcfs) && Trimmed(rr)
    ensures rr == Relabel(fcfs, perm)
    ensures Sum(Turnarounds(jobs, rr)) == Sum(Turnarounds(sorted, fcfs))
  {
    hide *;
    var h := Relabel(fcfs, perm);
    RR.RoundRobinFeasible(jobs, quantum, rr);
    RR.RoundRobinConserves(jobs, quantum, rr);
    InOrderConserves(sorted, fcfs);
    ConservingFeasible(sorted, fcfs);
    RelabelConserves(jobs, sorted, perm, fcfs);
    SameLength(jobs, rr, h);
    forall t | 0 <= t < |rr|
      ensures Runs.FirstCome(jobs, Backlog(jobs, rr, t), rr[t]) && Runs.FirstCome(jobs, Backlog(jobs, h, t), h[t])
    {
      Runs.NeverOutIsFirstCome(jobs, quantum, rr, t);
      FcfsIsFirstCome(jobs, sorted, perm, fcfs, t);
    }
    IntroFirstCome(jobs, rr);
    IntroFirstCome(jobs, h);
    SameChart(jobs, rr, h, |rr|);
    assert rr[..|rr|] == rr && h[..|rr|] == h;
    RelabelTotal(jobs, sorted, perm, fcfs);
  }

  lemma IntroFirstCome(jobs: seq<Job>, g: Chart)
    requires forall t :: 0 <= t < |g| ==> Runs.FirstCome(jobs, Backlog(jobs, g, t), g[t])
    ensures AllFirstCome(jobs, g)
  {
  }
}
