/**
 What the two non-preemptive loops have in common, and the SJF simulation.
 */
module NonPreemptive {
  import opened Schedule
  import opened Policies
  import opened Simulation
  import opened CpuScheduler

  /** Only the running process is begun and not done, and it has run without a break since its start. */
  ghost predicate Unbroken(s: seq<Process>, running: int, time: int)
  {
    && -1 <= running < |s|
    && (running != -1 ==> s[running].remain == s[running].burst - (time - s[running].start))
    && forall i :: 0 <= i < |s| && i != running ==>
         s[i].remain == s[i].burst || (s[i].remain == 0 && s[i].finish == s[i].start + s[i].burst)
  }

  /** The invariant common to both loops. */
  ghost predicate Looping(s: seq<Process>, jobs: seq<Job>, g: Chart, running: int, time: nat, fin: nat)
  {
    && Tracks(s, jobs, g, running) && Unbroken(s, running, time)
    && fin == EndCount(s)
    && Switches(g) == fin + (if running != -1 then 1 else 0)
    && (fin < |s| ==> time == |g|)
    && (fin == |s| ==> Trimmed(g) && running == -1)
    && forall i :: 0 <= i < |s| ==> s[i].remain >= 0 && s[i].burst >= 1
  }

  /** A finished non-preemptive run: each process runs in one stretch, so there are as many switches as processes. */
  ghost predicate OneStretchEach(s: seq<Process>, g: Chart)
  {
    && Switches(g) == |s|
    && forall i :: 0 <= i < |s| ==> s[i].finish == s[i].start + s[i].burst && s[i].waiting == s[i].start - s[i].arrival
  }

  /** Dispatch to `next`, or go on with it, or idle: the common end of both loop bodies. */
  method Stretch(list: array<Process>, next: int, time: nat, gantt: Chart,
                 ghost jobs: seq<Job>, ghost running: int, ghost fin: nat) returns (gantt': Chart)
    requires Tracks(list[..], jobs, gantt, running) && Unbroken(list[..], running, time) && time == |gantt|
    requires fin == EndCount(list[..]) && Switches(gantt) == fin + (if running != -1 then 1 else 0)
    requires forall i :: 0 <= i < list.Length ==> list[i].remain >= 0 && list[i].burst >= 1
    requires fin == list.Length ==> Trimmed(gantt)
    requires -1 <= next < list.Length && (running != -1 ==> next == running && list[running].remain > 0)
    requires next == -1 ==> forall i :: 0 <= i < list.Length ==> list[i].arrival > time || list[i].end
    requires next != -1 ==> list[next].arrival <= time && !list[next].end && list[next].remain > 0
    requires next != running ==> list[next].start == time && list[next].remain == list[next].burst
    requires next != -1 && list[next].remain == list[next].burst ==> list[next].start == time
    modifies list
    ensures Looping(list[..], jobs, gantt', next, time + 1, fin)
    ensures fin < list.Length ==>
              gantt' == gantt + [next] && Measure(list[..], time + 1) < old(Measure(list[..], time))
    ensures fin == list.Length ==>
              gantt' == gantt && Measure(list[..], time + 1) <= old(Measure(list[..], time))
    ensures forall i :: 0 <= i < list.Length ==> list[i].burst == old(list[i].burst)
  {
    hide RowTracks;
    hide FeasibleSoFar;
    hide Measure;
    hide EndCount;
    hide Switches;
    SwitchesExtend(gantt, next);
    gantt' := Advance(list, next, time, gantt, jobs, running);
  }

  /** Takes the finished process off the CPU, if there is one. */
  method Settle(list: array<Process>, running: int, time: nat, ghost jobs: seq<Job>, ghost g: Chart, fin: nat)
    returns (running': int, fin': nat)
    requires Looping(list[..], jobs, g, running, time, fin) && fin < list.Length
    modifies list
    ensures -1 <= running' < list.Length
    ensures running' == if running != -1 && old(list[running].remain) == 0 then -1 else running
    ensures running' != -1 ==> list[running'].remain > 0 && list[running'].remain < list[running'].burst
    ensures running' == running ==> list[..] == old(list[..]) && fin' == fin
    ensures Tracks(list[..], jobs, g, running') && Unbroken(list[..], running', time) && time == |g|
    ensures fin' == EndCount(list[..]) && Switches(g) == fin' + (if running' != -1 then 1 else 0)
    ensures fin' == list.Length ==> Trimmed(g)
    ensures fin < fin' || running' == running
    ensures Measure(list[..], time) <= old(Measure(list[..], time))
    ensures fin < fin' ==> Measure(list[..], time) < old(Measure(list[..], time))
    ensures forall i :: 0 <= i < list.Length ==>
              && list[i].remain == old(list[i].remain) && list[i].burst == old(list[i].burst)
              && list[i].arrival == old(list[i].arrival)
  {
    hide FeasibleSoFar;
    hide Measure;
    hide EndCount;
    hide Switches;
    running', fin' := running, fin;
    if running != -1 {
      RunningBegun(list[..], jobs, g, running);
    }
    hide RowTracks;
    if running != -1 && list[running].remain == 0 {
      Retire(list, running, time, jobs, g);
      running', fin' := -1, fin + 1;
    }
  }

  lemma RunningBegun(s: seq<Process>, jobs: seq<Job>, g: Chart, running: nat)
    requires Tracks(s, jobs, g, running) && running < |s|
    ensures s[running].remain < s[running].burst
  {
    RemainAtMostBurst(s, jobs, g, running, running);
    assert RowTracks(jobs, g, s[running], running, running);
    assert running in g;
  }

  /** At a dispatch nothing is begun: a live process has all its time left. */
  lemma DispatchFresh(s: seq<Process>, jobs: seq<Job>, g: Chart, time: int, i: nat)
    requires Tracks(s, jobs, g, -1) && Unbroken(s, -1, time) && i < |s| && !s[i].end
    ensures s[i].remain == s[i].burst
  {
    assert RowTracks(jobs, g, s[i], i, -1);
  }

  // ---------- SJF ----------

  ghost predicate SjfSoFar(jobs: seq<Job>, g: Chart)
  {
    forall t :: 0 <= t < |g| ==> FirstSjfRule(jobs, g, t)
  }

  lemma SjfNothing(jobs: seq<Job>)
    ensures SjfSoFar(jobs, [])
  {
  }

  lemma SjfExtend(jobs: seq<Job>, g: Chart, i: int)
    requires SjfSoFar(jobs, g)
    requires if GoesOn(jobs, g, |g|) then i == At(g, |g| - 1) else FirstLeastBurst(jobs, Backlog(jobs, g, |g|), i)
    ensures SjfSoFar(jobs, g + [i])
  {
    hide FirstLeastBurst;
    var h := g + [i];
    forall t | 0 <= t < |h|
      ensures FirstSjfRule(jobs, h, t)
    {
      LeftPrefix(jobs, g, h, t);
      if t < |g| {
        assert FirstSjfRule(jobs, g, t);
      }
    }
  }

  lemma GoesOnIff(s: seq<Process>, jobs: seq<Job>, g: Chart, running: int)
    requires Tracks(s, jobs, g, running) && (running != -1 ==> s[running].remain > 0)
    ensures GoesOn(jobs, g, |g|) <==> running != -1
    ensures running != -1 ==> At(g, |g| - 1) == running
    ensures running != -1 ==> s[running].arrival <= |g| && !s[running].end
  {
    if g != [] && g[|g| - 1] != -1 {
      var i := g[|g| - 1];
      assert RowTracks(jobs, g, s[i], i, running);
      assert FeasibleAt(jobs, g, |g| - 1);
    }
  }

  lemma PickedLeastBurst(s: seq<Process>, jobs: seq<Job>, g: Chart, idx: int)
    requires Tracks(s, jobs, g, -1)
    requires -1 <= idx < |s|
    requires idx == -1 ==> forall i :: 0 <= i < |s| ==> s[i].arrival > |g| || s[i].end
    requires idx != -1 ==> s[idx].arrival <= |g| && !s[idx].end
    requires forall i :: 0 <= i < |s| && s[i].arrival <= |g| && !s[i].end ==> idx != -1 && s[idx].burst <= s[i].burst
    requires forall i :: 0 <= i < idx && s[i].arrival <= |g| && !s[i].end ==> s[idx].burst < s[i].burst
    ensures FirstLeastBurst(jobs, Backlog(jobs, g, |g|), idx)
  {
    var live := Backlog(jobs, g, |g|);
    forall i | 0 <= i < |s|
      ensures live[i] > 0 <==> s[i].arrival <= |g| && !s[i].end
      ensures live[i] >= 0
      ensures jobs[i].burst == s[i].burst
    {
      LiveRows(s, jobs, g, -1, i);
      assert RowTracks(jobs, g, s[i], i, -1);
    }
  }

  /** The tick loop. */
  method RunShortestJobs(list: array<Process>, ghost jobs: seq<Job>) returns (gantt: Chart)
    requires Loaded(list[..]) && Jobs(list[..]) == jobs
    requires forall i :: 0 <= i < list.Length ==> list[i].burst < INT_MAX
    modifies list
    ensures Tracks(list[..], jobs, gantt, -1) && EndCount(list[..]) == list.Length && Trimmed(gantt)
    ensures FirstShortestJob(jobs, gantt) && Switches(gantt) == list.Length
    ensures forall i :: 0 <= i < list.Length ==> list[i].finish == list[i].start + list[i].burst
  {
    hide *;
    var fin: nat, time: nat, running: int := 0, 0, -1;
    gantt := [];
    Begin(list[..]);
    SjfNothing(jobs);
    while fin < list.Length
      invariant Looping(list[..], jobs, gantt, running, time, fin) && SjfSoFar(jobs, gantt)
      invariant forall i :: 0 <= i < list.Length ==> list[i].burst < INT_MAX
      decreases Measure(list[..], time)
    {
      LoopingBound(list[..], jobs, gantt, running, time, fin);
      fin, running, gantt := SjfTick(list, fin, time, running, gantt, jobs);
      time := time + 1;
    }
    Finished(list[..], jobs, gantt, running, time, fin);
    SjfDone(jobs, gantt);
  }

  /** The number of context switches is not counted but taken to be the number of processes; rightly so. */
  method SimulateSjf(list: array<Process>) returns (contextSwitch: nat, gantt: Chart)
    requires Loaded(list[..]) && forall i :: 0 <= i < list.Length ==> list[i].burst < INT_MAX
    modifies list
    ensures Reported(list[..], Jobs(old(list[..])), gantt)
    ensures FirstShortestJob(Jobs(old(list[..])), gantt) && ShortestJobFirst(Jobs(old(list[..])), gantt)
    ensures OneStretchEach(list[..], gantt) && contextSwitch == Switches(gantt)
  {
    hide *;
    contextSwitch := list.Length;
    ghost var jobs := Jobs(list[..]);
    gantt := RunShortestJobs(list, jobs);
    FirstShortestJobIsSjf(jobs, gantt);
    Report(list, false, jobs, gantt);
    StretchesReported(list[..], gantt);
  }

  lemma Begin(s: seq<Process>)
    requires Loaded(s)
    ensures Looping(s, Jobs(s), [], -1, 0, 0)
  {
    TrackStart(s);
    hide Tracks;
  }

  lemma LoopingBound(s: seq<Process>, jobs: seq<Job>, g: Chart, running: int, time: nat, fin: nat)
    requires Looping(s, jobs, g, running, time, fin)
    ensures Measure(s, time) >= 0
  {
    MeasureBound(s, time);
  }

  lemma SjfDone(jobs: seq<Job>, g: Chart)
    requires SjfSoFar(jobs, g) && Feasible(jobs, g)
    ensures FirstShortestJob(jobs, g)
  {
    hide FirstSjfRule;
  }

  lemma StretchesReported(s: seq<Process>, g: Chart)
    requires Switches(g) == |s|
    requires forall i :: 0 <= i < |s| ==>
               s[i].finish == s[i].start + s[i].burst && s[i].waiting == s[i].start - s[i].arrival
    ensures OneStretchEach(s, g) && |s| == Switches(g)
  {
  }

  /** One iteration of the SJF loop. */
  method SjfTick(list: array<Process>, fin: nat, time: nat, running: int, gantt: Chart, ghost jobs: seq<Job>)
    returns (fin': nat, running': int, gantt': Chart)
    requires fin < list.Length && Looping(list[..], jobs, gantt, running, time, fin) && SjfSoFar(jobs, gantt)
    requires forall i :: 0 <= i < list.Length ==> list[i].burst < INT_MAX
    modifies list
    ensures Looping(list[..], jobs, gantt', running', time + 1, fin') && SjfSoFar(jobs, gantt')
    ensures Measure(list[..], time + 1) < old(Measure(list[..], time))
    ensures forall i :: 0 <= i < list.Length ==> list[i].burst == old(list[i].burst)
  {
    hide Tracks;
    hide SjfSoFar;
    hide Measure;
    hide EndCount;
    hide Switches;
    hide FirstLeastBurst;
    var current;
    current, fin' := Settle(list, running, time, jobs, gantt, fin);
    running' := current;
    GoesOnIff(list[..], jobs, gantt, current);
    if current == -1 {
      running' := PickLeast(list, time, false);
      PickedLeastBurst(list[..], jobs, gantt, running');
      if running' != -1 {
        DispatchFresh(list[..], jobs, gantt, time, running');
        NoteStart(list, running', time, jobs, gantt, -1);
      }
    }
    SjfExtend(jobs, gantt, running');
    gantt' := Stretch(list, running', time, gantt, jobs, current, fin');
  }

  lemma Finished(s: seq<Process>, jobs: seq<Job>, g: Chart, running: int, time: nat, fin: nat)
    requires Looping(s, jobs, g, running, time, fin) && fin >= |s|
    ensures Tracks(s, jobs, g, -1) && EndCount(s) == |s| && Trimmed(g) && Switches(g) == |s|
    ensures Feasible(jobs, g)
    ensures forall i :: 0 <= i < |s| ==> s[i].finish == s[i].start + s[i].burst
  {
    TrackEnd(s, jobs, g);
    EndCountFull(s);
    forall i | 0 <= i < |s|
      ensures s[i].finish == s[i].start + s[i].burst
    {
      assert RowTracks(jobs, g, s[i], i, -1);
    }
  }
}
