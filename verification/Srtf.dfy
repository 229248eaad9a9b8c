/**
 Shortest-remaining-time-first minimises the total turnaround time over all feasible schedules.

 The proof compares, for every `k`, the work that lies outside the `k` longest live jobs. Running the
 shortest live job lowers all these numbers as fast as any schedule can, so at every tick no schedule has
 fewer unfinished jobs; and the total finishing time is the number of unfinished jobs summed over the ticks.
 */
module Srtf {
  import opened Basics
  import opened Schedule

  /** The least total that remains of `r` after leaving out up to `k` entries. */
  function Outside(r: seq<int>, k: nat): (n: int)
  {
    if r == [] then 0 else
    var init, last := r[..|r| - 1], r[|r| - 1];
    if k == 0 then Outside(init, 0) + last else Min(Outside(init, k) + last, Outside(init, k - 1))
  }

  lemma {:induction false} OutsideMonotone(r: seq<int>, k: nat)
    requires NonNegative(r)
    ensures 0 <= Outside(r, k + 1) <= Outside(r, k)
  {
    if r != [] {
      OutsideMonotone(r[..|r| - 1], k);
      if k > 0 {
        OutsideMonotone(r[..|r| - 1], k - 1);
      }
    }
  }

  lemma {:induction false} OutsideNonNegative(r: seq<int>, k: nat)
    requires NonNegative(r)
    ensures Outside(r, k) >= 0
  {
    OutsideMonotone(r, k);
  }

  lemma OutsideLast(r: seq<int>, b: int, k: nat)
    requires NonNegative(r) && r != []
    ensures var n := |r| - 1;
            Outside(r[n := b], k)
            == if k == 0 then Outside(r[n := 0], 0) + b
               else Min(Outside(r[n := 0], k) + b, Outside(r[n := 0], k - 1))
  {
    var n := |r| - 1;
    assert r[n := b][..n] == r[..n] == r[n := 0][..n];
    if k > 0 {
      OutsideMonotone(r[..n], k - 1);
    }
    if k > 1 {
      OutsideMonotone(r[..n], k - 2);
    }
  }

  lemma OutsideSnoc(init: seq<int>, last: int, k: nat)
    ensures Outside(init + [last], k)
            == if k == 0 then Outside(init, 0) + last else Min(Outside(init, k) + last, Outside(init, k - 1))
  {
    assert (init + [last])[..|init|] == init;
  }

  /** How one entry contributes: it is counted, or left out. */
  lemma {:induction false} OutsideEntry(r: seq<int>, i: nat, b: int, k: nat)
    requires NonNegative(r) && i < |r| && b >= 0
    ensures Outside(r[i := b], k)
            == if k == 0 then Outside(r[i := 0], 0) + b
               else Min(Outside(r[i := 0], k) + b, Outside(r[i := 0], k - 1))
  {
    hide Outside;
    var n := |r| - 1;
    if i == n {
      OutsideLast(r, b, k);
    } else {
      var init, last := r[..n], r[n];
      assert r[i := b] == init[i := b] + [last];
      assert r[i := 0] == init[i := 0] + [last];
      OutsideEntry(init, i, b, k);
      OutsideSnoc(init[i := b], last, k);
      OutsideSnoc(init[i := 0], last, k);
      if k > 0 {
        OutsideEntry(init, i, b, k - 1);
        OutsideSnoc(init[i := 0], last, k - 1);
      }
    }
  }

  /** Leaving out one more entry saves at least as much as the smallest positive entry. */
  lemma {:induction false} OutsideSaves(r: seq<int>, m: int, k: nat)
    requires NonNegative(r) && forall i :: 0 <= i < |r| && r[i] > 0 ==> m <= r[i]
    requires Outside(r, k) > 0
    ensures Outside(r, k + 1) + m <= Outside(r, k)
  {
    if r != [] {
      var init, last := r[..|r| - 1], r[|r| - 1];
      if Outside(r, k) == Outside(init, k) + last {
        if last == 0 {
          OutsideSaves(init, m, k);
        }
      } else {
        OutsideSaves(init, m, k - 1);
      }
    }
  }

  /** Running the shortest live job lowers every count, until it is zero. */
  lemma RunShortest(r: seq<int>, i: nat, k: nat)
    requires NonNegative(r) && i < |r| && r[i] > 0
    requires forall j :: 0 <= j < |r| && r[j] > 0 ==> r[i] <= r[j]
    ensures Outside(Run(r, i), k) <= Outside(r, k)
    ensures Outside(r, k) > 0 ==> Outside(Run(r, i), k) <= Outside(r, k) - 1
  {
    hide Outside;
    assert r[i := r[i]] == r;
    OutsideEntry(r, i, r[i], k);
    OutsideEntry(r, i, r[i] - 1, k);
    if k > 0 && Outside(r, k) > 0 && Outside(r[i := 0], k - 1) > 0 {
      OutsideSaves(r[i := 0], r[i], k - 1);
    }
  }

  /** No tick lowers a count by more than one, nor below zero. */
  lemma RunAny(r: seq<int>, i: int, k: nat)
    requires NonNegative(r) && (0 <= i < |r| ==> r[i] > 0)
    ensures Outside(Run(r, i), k) >= Outside(r, k) - 1
    ensures Outside(Run(r, i), k) >= 0
  {
    OutsideNonNegative(Run(r, i), k);
    if 0 <= i < |r| {
      assert r[i := r[i]] == r;
      OutsideEntry(r, i, r[i], k);
      OutsideEntry(r, i, r[i] - 1, k);
    }
  }

  /** `ours` is at least as far along as `theirs`, whichever `k` jobs are left out. */
  ghost predicate Ahead(ours: seq<int>, theirs: seq<int>)
  {
    forall k: nat :: Outside(ours, k) <= Outside(theirs, k)
  }

  lemma AheadArrival(ours: seq<int>, theirs: seq<int>, i: nat, b: int)
    requires NonNegative(ours) && NonNegative(theirs) && |ours| == |theirs| && i < |ours| && b >= 0
    requires ours[i] == theirs[i] == 0 && Ahead(ours, theirs)
    ensures Ahead(ours[i := b], theirs[i := b])
  {
    assert ours[i := 0] == ours && theirs[i := 0] == theirs;
    var ours', theirs' := ours[i := b], theirs[i := b];
    forall k: nat
      ensures Outside(ours', k) <= Outside(theirs', k)
    {
      OutsideEntry(ours, i, b, k);
      OutsideEntry(theirs, i, b, k);
      assert Outside(ours, k) <= Outside(theirs, k);
      if k > 0 {
        assert Outside(ours, k - 1) <= Outside(theirs, k - 1);
      }
    }
  }

  lemma AheadTick(ours: seq<int>, theirs: seq<int>, i: int, j: int)
    requires NonNegative(ours) && NonNegative(theirs) && Ahead(ours, theirs)
    requires ShortestOf(ours, i)
    requires 0 <= j < |theirs| ==> theirs[j] > 0
    ensures Ahead(Run(ours, i), Run(theirs, j))
  {
    forall k: nat
      ensures Outside(Run(ours, i), k) <= Outside(Run(theirs, j), k)
    {
      assert Outside(ours, k) <= Outside(theirs, k);
      RunAny(theirs, j, k);
      if 0 <= i < |ours| {
        RunShortest(ours, i, k);
        OutsideNonNegative(ours, k);
      } else {
        AllZero(ours, k);
      }
    }
  }

  lemma {:induction false} AllZero(r: seq<int>, k: nat)
    requires forall i :: 0 <= i < |r| ==> r[i] == 0
    ensures Outside(r, k) == 0
  {
    if r != [] {
      AllZero(r[..|r| - 1], k);
      if k > 0 {
        AllZero(r[..|r| - 1], k - 1);
      }
    }
  }

  /** Nothing lies outside the `k` longest exactly when at most `k` jobs are unfinished. */
  lemma {:induction false} OutsideCounts(r: seq<int>, k: nat)
    requires NonNegative(r)
    ensures Outside(r, k) == 0 <==> Positives(r) <= k
  {
    if r != [] {
      var init := r[..|r| - 1];
      OutsideCounts(init, k);
      OutsideNonNegative(init, k);
      if k > 0 {
        OutsideCounts(init, k - 1);
        OutsideNonNegative(init, k - 1);
      }
    }
  }

  lemma AheadCounts(ours: seq<int>, theirs: seq<int>)
    requires NonNegative(ours) && NonNegative(theirs) && Ahead(ours, theirs)
    ensures Positives(ours) <= Positives(theirs)
  {
    var n := Positives(theirs);
    OutsideCounts(theirs, n);
    OutsideCounts(ours, n);
    OutsideNonNegative(ours, n);
    assert Outside(ours, n) <= Outside(theirs, n);
  }

  // ---------- whole schedules ----------

  /** `i` is a shortest unfinished entry of `live`, or -1 when all are finished. */
  ghost predicate ShortestOf(live: seq<int>, i: int)
  {
    if i == -1 then forall j :: 0 <= j < |live| ==> live[j] == 0 else
      && 0 <= i < |live| && live[i] > 0
      && forall j :: 0 <= j < |live| && live[j] > 0 ==> live[i] <= live[j]
  }

  /** In every tick a live job with least remaining time runs, and the CPU idles only if there is none. */
  ghost predicate ShortestFirst(jobs: seq<Job>, g: Chart)
  {
    && Feasible(jobs, g)
    && forall t :: 0 <= t < |g| ==> ShortestOf(Backlog(jobs, g, t), At(g, t))
  }

  /** Of several shortest entries `i` is the first. */
  ghost predicate FirstShortestOf(live: seq<int>, i: int)
  {
    ShortestOf(live, i) && forall j :: 0 <= j < i && live[j] > 0 ==> live[i] < live[j]
  }

  /** As `ShortestFirst`, with ties settled by the order of the table. */
  ghost predicate FirstShortest(jobs: seq<Job>, g: Chart)
  {
    && Feasible(jobs, g)
    && forall t :: 0 <= t < |g| ==> FirstShortestOf(Backlog(jobs, g, t), At(g, t))
  }

  lemma FirstShortestIsShortest(jobs: seq<Job>, g: Chart)
    requires FirstShortest(jobs, g)
    ensures ShortestFirst(jobs, g)
  {
    hide Feasible, Backlog, ShortestOf;
    forall t | 0 <= t < |g|
      ensures ShortestOf(Backlog(jobs, g, t), At(g, t))
    {
      assert FirstShortestOf(Backlog(jobs, g, t), At(g, t));
    }
  }

  /** The live work of the jobs below `n` at time `t + 1`, of the others at time `t`. */
  ghost function Arriving(jobs: seq<Job>, left: seq<int>, t: int, n: nat): (r: seq<int>)
    requires |left| == |jobs| && n <= |jobs|
    ensures |r| == |jobs|
    ensures forall i :: 0 <= i < |jobs| ==>
              r[i] == if jobs[i].arrival <= (if i < n then t + 1 else t) then left[i] else 0
  {
    seq(|jobs|, i requires 0 <= i < |jobs| => if jobs[i].arrival <= (if i < n then t + 1 else t) then left[i] else 0)
  }

  lemma {:induction false} AheadArrivals(jobs: seq<Job>, ours: seq<int>, theirs: seq<int>, t: int, n: nat)
    requires |ours| == |theirs| == |jobs| && n <= |jobs| && NonNegative(ours) && NonNegative(theirs)
    requires forall i :: 0 <= i < |jobs| && jobs[i].arrival == t + 1 ==> ours[i] == theirs[i]
    requires Ahead(Live(jobs, ours, t), Live(jobs, theirs, t))
    ensures Ahead(Arriving(jobs, ours, t, n), Arriving(jobs, theirs, t, n))
  {
    hide Ahead;
    if n == 0 {
      assert Arriving(jobs, ours, t, 0) == Live(jobs, ours, t);
      assert Arriving(jobs, theirs, t, 0) == Live(jobs, theirs, t);
    } else {
      AheadArrivals(jobs, ours, theirs, t, n - 1);
      ArrivingStep(jobs, ours, t, n);
      ArrivingStep(jobs, theirs, t, n);
      if jobs[n - 1].arrival == t + 1 {
        AheadArrival(Arriving(jobs, ours, t, n - 1), Arriving(jobs, theirs, t, n - 1), n - 1, ours[n - 1]);
      }
    }
  }

  lemma ArrivingStep(jobs: seq<Job>, left: seq<int>, t: int, n: nat)
    requires |left| == |jobs| && 1 <= n <= |jobs| && NonNegative(left)
    ensures var a := Arriving(jobs, left, t, n - 1);
            && NonNegative(a)
            && Arriving(jobs, left, t, n) == (if jobs[n - 1].arrival == t + 1 then a[n - 1 := left[n - 1]] else a)
            && (jobs[n - 1].arrival == t + 1 ==> a[n - 1] == 0)
  {
  }

  lemma LiveRun(jobs: seq<Job>, left: seq<int>, t: int, i: int)
    requires |left| == |jobs| && (0 <= i < |jobs| ==> jobs[i].arrival <= t)
    ensures Live(jobs, Run(left, i), t) == Run(Live(jobs, left, t), i)
  {
  }

  lemma FeasibleTick(jobs: seq<Job>, g: Chart, t: nat)
    requires Sound(jobs) && Feasible(jobs, g)
    ensures FeasibleAt(jobs, g, t)
    ensures 0 <= At(g, t) < |jobs| ==> Backlog(jobs, g, t)[At(g, t)] > 0 && jobs[At(g, t)].arrival <= t
    ensures NonNegative(Left(jobs, g, t)) && NonNegative(Backlog(jobs, g, t))
  {
    LeftNonNegative(jobs, g, t);
    if t < |g| {
      assert FeasibleAt(jobs, g, t);
    }
  }

  lemma ShortestTick(jobs: seq<Job>, g: Chart, t: nat)
    requires Sound(jobs) && ShortestFirst(jobs, g)
    ensures ShortestOf(Backlog(jobs, g, t), At(g, t))
  {
    if t < |g| {
      assert ShortestOf(Backlog(jobs, g, t), At(g, t));
    } else {
      LeftAfterEnd(jobs, g, t);
    }
  }

  /** At every tick, SRTF is ahead of every feasible schedule. */
  lemma {:induction false} SrtfAhead(jobs: seq<Job>, g: Chart, h: Chart, t: nat)
    requires Sound(jobs) && ShortestFirst(jobs, g) && Feasible(jobs, h)
    ensures Ahead(Backlog(jobs, g, t), Backlog(jobs, h, t))
  {
    hide Feasible;
    hide ShortestFirst;
    hide Outside;
    if t == 0 {
      assert Left(jobs, g, 0) == Left(jobs, h, 0);
    } else {
      hide Left;
      hide Backlog;
      SrtfAhead(jobs, g, h, t - 1);
      AheadNext(jobs, g, h, t - 1);
    }
  }

  /** A tick, then the arrivals. */
  lemma BacklogStep(jobs: seq<Job>, g: Chart, t: nat)
    requires Sound(jobs) && Feasible(jobs, g)
    ensures Live(jobs, Left(jobs, g, t + 1), t) == Run(Backlog(jobs, g, t), At(g, t))
    ensures Arriving(jobs, Left(jobs, g, t + 1), t, |jobs|) == Backlog(jobs, g, t + 1)
  {
    hide Feasible;
    FeasibleTick(jobs, g, t);
    LiveRun(jobs, Left(jobs, g, t), t, At(g, t));
  }

  lemma AheadNext(jobs: seq<Job>, g: Chart, h: Chart, t: nat)
    requires Sound(jobs) && ShortestFirst(jobs, g) && Feasible(jobs, h)
    requires Ahead(Backlog(jobs, g, t), Backlog(jobs, h, t))
    ensures Ahead(Backlog(jobs, g, t + 1), Backlog(jobs, h, t + 1))
  {
    hide Feasible;
    hide Ahead;
    hide Left;
    hide Backlog;
    FeasibleTick(jobs, g, t);
    FeasibleTick(jobs, h, t);
    FeasibleTick(jobs, g, t + 1);
    FeasibleTick(jobs, h, t + 1);
    ShortestTick(jobs, g, t);
    AheadTick(Backlog(jobs, g, t), Backlog(jobs, h, t), At(g, t), At(h, t));
    BacklogStep(jobs, g, t);
    BacklogStep(jobs, h, t);
    SameArrivals(jobs, g, h, t + 1);
    AheadArrivals(jobs, Left(jobs, g, t + 1), Left(jobs, h, t + 1), t, |jobs|);
  }

  lemma SameArrivals(jobs: seq<Job>, g: Chart, h: Chart, t: nat)
    requires Feasible(jobs, g) && Feasible(jobs, h)
    ensures forall i :: 0 <= i < |jobs| && jobs[i].arrival >= t ==> Left(jobs, g, t)[i] == Left(jobs, h, t)[i]
  {
    hide Left;
    forall i | 0 <= i < |jobs| && jobs[i].arrival >= t
      ensures Left(jobs, g, t)[i] == Left(jobs, h, t)[i]
    {
      NotArrivedUntouched(jobs, g, t, i);
      NotArrivedUntouched(jobs, h, t, i);
    }
  }

  /** Unfinished jobs are the live ones and those still to come. */
  lemma {:induction false} PendingSplit(jobs: seq<Job>, ours: seq<int>, theirs: seq<int>, t: int, n: nat)
    requires |ours| == |theirs| == |jobs| && n <= |jobs|
    requires forall i :: 0 <= i < |jobs| && jobs[i].arrival > t ==> ours[i] == theirs[i]
    ensures Positives(ours[..n]) - Positives(Live(jobs, ours, t)[..n])
            == Positives(theirs[..n]) - Positives(Live(jobs, theirs, t)[..n])
  {
    if n > 0 {
      PendingSplit(jobs, ours, theirs, t, n - 1);
      hide Positives;
      PositivesNext(ours, n);
      PositivesNext(theirs, n);
      PositivesNext(Live(jobs, ours, t), n);
      PositivesNext(Live(jobs, theirs, t), n);
    } else {
      assert ours[..0] == theirs[..0] == Live(jobs, ours, t)[..0] == Live(jobs, theirs, t)[..0] == [];
    }
  }

  lemma PositivesNext(r: seq<int>, n: nat)
    requires 1 <= n <= |r|
    ensures Positives(r[..n]) == Positives(r[..n - 1]) + if r[n - 1] > 0 then 1 else 0
  {
    assert r[..n][..n - 1] == r[..n - 1];
  }

  /** At every tick, no feasible schedule has fewer unfinished jobs than SRTF. */
  lemma FewestUnfinished(jobs: seq<Job>, g: Chart, h: Chart, t: nat)
    requires Sound(jobs) && ShortestFirst(jobs, g) && Feasible(jobs, h)
    ensures Positives(Left(jobs, g, t)) <= Positives(Left(jobs, h, t))
  {
    SrtfAhead(jobs, g, h, t);
    FeasibleTick(jobs, g, t);
    FeasibleTick(jobs, h, t);
    AheadCounts(Backlog(jobs, g, t), Backlog(jobs, h, t));
    var ours, theirs := Left(jobs, g, t), Left(jobs, h, t);
    SameArrivals(jobs, g, h, t);
    PendingSplit(jobs, ours, theirs, t, |jobs|);
    assert ours[..|jobs|] == ours && theirs[..|jobs|] == theirs;
    assert Live(jobs, ours, t)[..|jobs|] == Backlog(jobs, g, t);
    assert Live(jobs, theirs, t)[..|jobs|] == Backlog(jobs, h, t);
  }

  lemma {:induction false} FewerPendingTicks(jobs: seq<Job>, g: Chart, h: Chart, horizon: nat)
    requires Sound(jobs) && ShortestFirst(jobs, g) && Feasible(jobs, h)
    ensures PendingTicks(jobs, g, horizon) <= PendingTicks(jobs, h, horizon)
  {
    hide Feasible;
    hide ShortestFirst;
    hide Left;
    if horizon > 0 {
      FewerPendingTicks(jobs, g, h, horizon - 1);
      FewestUnfinished(jobs, g, h, horizon - 1);
    }
  }

  lemma {:induction false} NoPositives(r: seq<int>)
    requires forall i :: 0 <= i < |r| ==> r[i] == 0
    ensures Positives(r) == 0
  {
    if r != [] {
      NoPositives(r[..|r| - 1]);
    }
  }

  /** Ticks after the end of a chart add nothing. */
  lemma {:induction false} PendingBeyond(jobs: seq<Job>, g: Chart, horizon: nat)
    requires Feasible(jobs, g) && horizon >= |g|
    ensures PendingTicks(jobs, g, horizon) == PendingTicks(jobs, g, |g|)
  {
    if horizon > |g| {
      PendingBeyond(jobs, g, horizon - 1);
      LeftAfterEnd(jobs, g, horizon - 1);
      NoPositives(Left(jobs, g, horizon - 1));
    }
  }

  lemma TotalTurnaround(jobs: seq<Job>, g: Chart)
    ensures Sum(Turnarounds(jobs, g))
            == PendingTicks(jobs, g, |g|) - Sum(seq(|jobs|, i requires 0 <= i < |jobs| => jobs[i].arrival))
  {
    SumByTick(jobs, g, |g|);
    SumDifference(seq(|jobs|, i requires 0 <= i < |jobs| => Finish(jobs, g, i, |g|)),
                  seq(|jobs|, i requires 0 <= i < |jobs| => jobs[i].arrival), Turnarounds(jobs, g));
  }

  /** SRTF minimises the sum of turnaround times over all feasible schedules of the same jobs. */
  lemma SrtfIsOptimal(jobs: seq<Job>, g: Chart, h: Chart)
    requires Sound(jobs) && ShortestFirst(jobs, g) && Feasible(jobs, h)
    ensures Sum(Turnarounds(jobs, g)) <= Sum(Turnarounds(jobs, h))
  {
    var horizon := if |g| <= |h| then |h| else |g|;
    PendingBeyond(jobs, g, horizon);
    PendingBeyond(jobs, h, horizon);
    FewerPendingTicks(jobs, g, h, horizon);
    TotalTurnaround(jobs, g);
    TotalTurnaround(jobs, h);
  }
}
