/**
 The FCFS simulation: a stable insertion sort by arrival time, then a non-preemptive tick loop.
 */
module Fcfs {
  import opened Schedule
  import opened Policies
  import opened Simulation
  import opened CpuScheduler
  import opened NonPreemptive
  import opened Counting

  // ---------- the sort ----------

  /** `s` with element `i` moved down to position `at`. */
  ghost function Moved<T>(s: seq<T>, i: nat, at: nat): (r: seq<T>)
    requires at <= i < |s|
    ensures |r| == |s|
    ensures forall j :: 0 <= j < |s| ==> r[j] == s[Source(i, at, j)]
  {
    s[..at] + [s[i]] + s[at..i] + s[i + 1..]
  }

  ghost function Source(i: nat, at: nat, j: nat): (k: nat)
    requires at <= i
  {
    if j == at then i else if at < j <= i then j - 1 else j
  }

  /** `s` is `original` rearranged by `perm`, with the first `n` rows in order and ties in input order. */
  ghost predicate SortedSoFar(s: seq<Process>, original: seq<Process>, perm: seq<nat>, n: nat)
  {
    && n <= |s| == |original| && IsPermutation(perm, |s|)
    && (forall j :: 0 <= j < |s| ==> s[j] == original[perm[j]])
    && (forall j :: 0 <= j < n ==> perm[j] < n)
    && (forall j :: n <= j < |s| ==> perm[j] == j)
    && (forall i, j :: 0 <= i < j < n ==> InSequence(s, perm, i, j))
  }

  ghost predicate InSequence(s: seq<Process>, perm: seq<nat>, i: nat, j: nat)
    requires i < |s| == |perm| && j < |s|
  {
    s[i].arrival < s[j].arrival || (s[i].arrival == s[j].arrival && perm[i] < perm[j])
  }

  /** The inner loop: shifts later arrivals up and drops the pivot in place. */
  method Insert(list: array<Process>, i: nat) returns (ghost at: nat)
    requires i < list.Length
    modifies list
    ensures at <= i && list[..] == Moved(old(list[..]), i, at)
    ensures at > 0 ==> old(list[at - 1]).arrival <= old(list[i]).arrival
    ensures forall j :: at <= j < i ==> old(list[j]).arrival > old(list[i]).arrival
  {
    var pivot := list[i];
    var j: int := i - 1;
    while j >= 0
      invariant -1 <= j < i
      invariant forall m :: 0 <= m <= j ==> list[m] == old(list[m])
      invariant forall m :: j + 1 < m <= i ==> list[m] == old(list[m - 1])
      invariant forall m :: i < m < list.Length ==> list[m] == old(list[m])
      invariant forall m :: j < m < i ==> old(list[m]).arrival > pivot.arrival
    {
      if list[j].arrival > pivot.arrival {
        list[j + 1] := list[j];
      } else {
        break;
      }
      j := j - 1;
    }
    list[j + 1] := pivot;
    at := j + 1;
    ghost var r := Moved(old(list[..]), i, at);
    assert forall m :: 0 <= m < list.Length ==> list[m] == r[m];
  }

  lemma MovedPermutation(perm: seq<nat>, i: nat, at: nat)
    requires at <= i < |perm| && IsPermutation(perm, |perm|)
    ensures IsPermutation(Moved(perm, i, at), |perm|)
  {
    var r := Moved(perm, i, at);
    forall j, k | 0 <= j < k < |perm|
      ensures r[j] != r[k]
    {
      assert Source(i, at, j) != Source(i, at, k);
    }
  }

  lemma InsertedInSequence(s: seq<Process>, perm: seq<nat>, n: nat, at: nat, i: nat, j: nat)
    requires |perm| == |s| && n < |s| && at <= n && i < j <= n
    requires perm[n] == n && forall m :: 0 <= m < n ==> perm[m] < n
    requires forall a, b :: 0 <= a < b < n ==> InSequence(s, perm, a, b)
    requires at > 0 ==> s[at - 1].arrival <= s[n].arrival
    requires forall m :: at <= m < n ==> s[m].arrival > s[n].arrival
    ensures InSequence(Moved(s, n, at), Moved(perm, n, at), i, j)
  {
    var i', j' := Source(n, at, i), Source(n, at, j);
    if j == at {
      if i < at - 1 {
        assert InSequence(s, perm, i, at - 1);
      }
    } else if i != at {
      assert InSequence(s, perm, i', j');
    }
  }

  lemma SortStep(s: seq<Process>, original: seq<Process>, perm: seq<nat>, n: nat, at: nat)
    requires SortedSoFar(s, original, perm, n) && n < |s| && at <= n
    requires at > 0 ==> s[at - 1].arrival <= s[n].arrival
    requires forall j :: at <= j < n ==> s[j].arrival > s[n].arrival
    ensures SortedSoFar(Moved(s, n, at), original, Moved(perm, n, at), n + 1)
  {
    var s', perm' := Moved(s, n, at), Moved(perm, n, at);
    MovedPermutation(perm, n, at);
    hide IsPermutation;
    hide Moved;
    assert forall i, j :: 0 <= i < j < n + 1 ==> InSequence(s', perm', i, j) by {
      forall i, j | 0 <= i < j < n + 1
        ensures InSequence(s', perm', i, j)
      {
        InsertedInSequence(s, perm, n, at, i, j);
      }
    }
    hide InSequence;
    assert forall j :: 0 <= j < |s| ==> s'[j] == original[perm'[j]];
  }

  lemma InInputOrder(s: seq<Process>) returns (perm: seq<nat>)
    ensures SortedSoFar(s, s, perm, if s == [] then 0 else 1)
  {
    perm := seq(|s|, i requires i >= 0 => i);
  }

  lemma PermSize(s: seq<Process>, original: seq<Process>, perm: seq<nat>, n: nat)
    requires SortedSoFar(s, original, perm, n)
    ensures |perm| == |s|
  {
  }

  method SortByArrival(list: array<Process>) returns (ghost perm: seq<nat>)
    modifies list
    ensures SortedSoFar(list[..], old(list[..]), perm, list.Length)
  {
    hide *;
    perm := InInputOrder(list[..]);
    var i := if list.Length == 0 then 0 else 1;
    while i < list.Length
      invariant i <= list.Length
      invariant SortedSoFar(list[..], old(list[..]), perm, i)
    {
      ghost var s := list[..];
      ghost var at := Insert(list, i);
      PermSize(s, old(list[..]), perm, i);
      SortStep(s, old(list[..]), perm, i, at);
      perm := Moved(perm, i, at);
      i := i + 1;
    }
  }

  /** Jobs that arrive together keep their input order. */
  ghost predicate StablyOrdered(jobs: seq<Job>, perm: seq<nat>)
  {
    && |perm| == |jobs|
    && forall i, j :: 0 <= i < j < |jobs| && jobs[i].arrival == jobs[j].arrival ==> perm[i] < perm[j]
  }

  lemma SortedJobs(s: seq<Process>, original: seq<Process>, perm: seq<nat>)
    requires SortedSoFar(s, original, perm, |s|)
    ensures SortedByArrival(Jobs(s)) && StablyOrdered(Jobs(s), perm)
    ensures Loaded(original) ==> Loaded(s)
    ensures IsPermutation(perm, |s|)
    ensures forall j :: 0 <= j < |s| ==> Jobs(s)[j] == Jobs(original)[perm[j]]
  {
    forall i, j | 0 <= i < j < |s|
      ensures Jobs(s)[i].arrival <= Jobs(s)[j].arrival
      ensures Jobs(s)[i].arrival == Jobs(s)[j].arrival ==> perm[i] < perm[j]
    {
      assert InSequence(s, perm, i, j);
    }
  }

  // ---------- the loop ----------

  ghost predicate InOrderSoFar(jobs: seq<Job>, g: Chart)
  {
    forall t :: 0 <= t < |g| ==> FirstUnfinished(jobs, Left(jobs, g, t), t, g[t])
  }

  lemma InOrderExtend(jobs: seq<Job>, g: Chart, i: int)
    requires InOrderSoFar(jobs, g) && FirstUnfinished(jobs, Left(jobs, g, |g|), |g|, i)
    ensures InOrderSoFar(jobs, g + [i])
  {
    hide FirstUnfinished;
    hide Left;
    var h := g + [i];
    forall t | 0 <= t < |h|
      ensures FirstUnfinished(jobs, Left(jobs, h, t), t, h[t])
    {
      LeftPrefix(jobs, g, h, t);
      if t < |g| {
        assert FirstUnfinished(jobs, Left(jobs, g, t), t, g[t]);
      }
    }
  }

  lemma InOrderNothing(jobs: seq<Job>)
    ensures InOrderSoFar(jobs, [])
  {
  }

  /** The search for the first process that has arrived and is not ended. */
  method PickFirst(list: array<Process>, time: int) returns (idx: int)
    ensures -1 <= idx < list.Length
    ensures idx == -1 ==> forall i :: 0 <= i < list.Length ==> list[i].arrival > time || list[i].end
    ensures idx != -1 ==> list[idx].arrival <= time && !list[idx].end
    ensures idx != -1 ==> forall i :: 0 <= i < idx ==> list[i].arrival > time || list[i].end
  {
    idx := -1;
    var i := 0;
    while i < list.Length
      invariant 0 <= i <= list.Length
      invariant forall j :: 0 <= j < i ==> list[j].arrival > time || list[j].end
    {
      if list[i].arrival <= time && !list[i].end {
        return i;
      }
      i := i + 1;
    }
  }

  lemma PickedFirst(s: seq<Process>, jobs: seq<Job>, g: Chart, idx: int)
    requires Tracks(s, jobs, g, -1) && SortedByArrival(jobs)
    requires -1 <= idx < |s|
    requires idx == -1 ==> forall i :: 0 <= i < |s| ==> s[i].arrival > |g| || s[i].end
    requires idx != -1 ==> s[idx].arrival <= |g| && !s[idx].end
    requires idx != -1 ==> forall i :: 0 <= i < idx ==> s[i].arrival > |g| || s[i].end
    ensures FirstUnfinished(jobs, Left(jobs, g, |g|), |g|, idx)
  {
    var left := Left(jobs, g, |g|);
    forall i | 0 <= i < |s|
      ensures left[i] == s[i].remain >= 0 && jobs[i].arrival == s[i].arrival && (s[i].end <==> left[i] == 0)
    {
      assert RowTracks(jobs, g, s[i], i, -1);
      RemainAtMostBurst(s, jobs, g, -1, i);
    }
  }

  lemma FirstGoesOn(s: seq<Process>, jobs: seq<Job>, g: Chart, running: nat)
    requires Tracks(s, jobs, g, running) && running < |s| && s[running].remain > 0
    requires InOrderSoFar(jobs, g)
    ensures FirstUnfinished(jobs, Left(jobs, g, |g|), |g|, running)
  {
    assert RowTracks(jobs, g, s[running], running, running);
    assert FirstUnfinished(jobs, Left(jobs, g, |g| - 1), |g| - 1, g[|g| - 1]);
  }

  /** One iteration of the FCFS loop. */
  method FcfsTick(list: array<Process>, fin: nat, time: nat, running: int, gantt: Chart, ghost jobs: seq<Job>)
    returns (fin': nat, running': int, gantt': Chart)
    requires fin < list.Length && Looping(list[..], jobs, gantt, running, time, fin)
    requires InOrderSoFar(jobs, gantt) && SortedByArrival(jobs)
    modifies list
    ensures Looping(list[..], jobs, gantt', running', time + 1, fin') && InOrderSoFar(jobs, gantt')
    ensures Measure(list[..], time + 1) < old(Measure(list[..], time))
  {
    hide Tracks;
    hide InOrderSoFar;
    hide FirstUnfinished;
    hide Measure;
    hide EndCount;
    hide Switches;
    var current;
    current, fin' := Settle(list, running, time, jobs, gantt, fin);
    running' := current;
    GoesOnIff(list[..], jobs, gantt, current);
    if current == -1 {
      running' := PickFirst(list, time);
      PickedFirst(list[..], jobs, gantt, running');
      if running' != -1 {
        DispatchFresh(list[..], jobs, gantt, time, running');
        NoteStart(list, running', time, jobs, gantt, -1);
      }
    } else {
      FirstGoesOn(list[..], jobs, gantt, current);
    }
    InOrderExtend(jobs, gantt, running');
    gantt' := Stretch(list, running', time, gantt, jobs, current, fin');
  }

  /** The tick loop, on a table already sorted by arrival. */
  method RunInOrder(list: array<Process>, ghost jobs: seq<Job>) returns (gantt: Chart)
    requires Loaded(list[..]) && Jobs(list[..]) == jobs && SortedByArrival(jobs)
    modifies list
    ensures Tracks(list[..], jobs, gantt, -1) && EndCount(list[..]) == list.Length && Trimmed(gantt)
    ensures InOrder(jobs, gantt) && Switches(gantt) == list.Length
    ensures forall i :: 0 <= i < list.Length ==> list[i].finish == list[i].start + list[i].burst
  {
    hide *;
    var fin: nat, time: nat, running: int := 0, 0, -1;
    gantt := [];
    Begin(list[..]);
    InOrderNothing(jobs);
    while fin < list.Length
      invariant Looping(list[..], jobs, gantt, running, time, fin) && InOrderSoFar(jobs, gantt)
      decreases Measure(list[..], time)
    {
      LoopingBound(list[..], jobs, gantt, running, time, fin);
      fin, running, gantt := FcfsTick(list, fin, time, running, gantt, jobs);
      time := time + 1;
    }
    Finished(list[..], jobs, gantt, running, time, fin);
    FcfsDone(jobs, gantt);
  }

  method SimulateFcfs(list: array<Process>) returns (contextSwitch: nat, gantt: Chart, ghost perm: seq<nat>)
    requires Loaded(list[..])
    modifies list
    ensures IsPermutation(perm, list.Length)
    ensures forall j :: 0 <= j < list.Length ==> Jobs(list[..])[j] == Jobs(old(list[..]))[perm[j]]
    ensures SortedByArrival(Jobs(list[..])) && StablyOrdered(Jobs(list[..]), perm)
    ensures Reported(list[..], Jobs(list[..]), gantt)
    ensures InOrder(Jobs(list[..]), gantt)
    ensures OneStretchEach(list[..], gantt) && contextSwitch == Switches(gantt)
  {
    hide *;
    contextSwitch := list.Length;
    perm := SortByArrival(list);
    SortedJobs(list[..], old(list[..]), perm);
    ghost var jobs := Jobs(list[..]);
    gantt := RunInOrder(list, jobs);
    Report(list, false, jobs, gantt);
    ReportedJobs(list[..], jobs, gantt);
    StretchesReported(list[..], gantt);
  }

  lemma ReportedJobs(s: seq<Process>, jobs: seq<Job>, g: Chart)
    requires Reported(s, jobs, g)
    ensures Jobs(s) == jobs
  {
  }

  lemma FcfsDone(jobs: seq<Job>, g: Chart)
    requires InOrderSoFar(jobs, g) && Feasible(jobs, g)
    ensures InOrder(jobs, g)
  {
    hide FirstUnfinished;
  }
}
