/**
 The parts all tick loops over the mutable process table share, and the SRTF simulation: it records the Gantt
 chart it prints, and is proved to draw a chart of its policy and to report true times.
 */
module CpuScheduler {
  import opened Basics
  import opened Schedule
  import opened Srtf
  import opened Policies
  import opened Simulation

  const INT_MAX := 0x7fff_ffff

  /** What a finished simulation reports about its chart, whatever the policy. */
  ghost predicate Reported(s: seq<Process>, jobs: seq<Job>, g: Chart)
  {
    && Jobs(s) == jobs
    && Feasible(jobs, g) && Trimmed(g)
    && forall i :: 0 <= i < |s| ==>
         && s[i].finish == Finish(jobs, g, i, |g|)
         && StartedAt(g, i, s[i].start)
         && s[i].turnaround == s[i].finish - s[i].arrival
         && s[i].response == s[i].start - s[i].arrival
  }

  /** The running process has nothing left: note the time and take it off the CPU. */
  method Retire(list: array<Process>, running: nat, time: nat, ghost jobs: seq<Job>, ghost g: Chart)
    requires Tracks(list[..], jobs, g, running) && running < list.Length && list[running].remain == 0 && time == |g|
    modifies list
    ensures Tracks(list[..], jobs, g, -1) && EndCount(list[..]) == old(EndCount(list[..])) + 1
    ensures list[..] == old(list[..])[running := old(list[running]).(finish := time, end := true)]
    ensures Measure(list[..], time) < old(Measure(list[..], time))
  {
    hide Tracks;
    TrackRetire(list[..], jobs, g, running);
    ghost var s := list[..];
    list[running] := list[running].(finish := time, end := true);
    assert list[..] == s[running := s[running].(finish := time, end := true)];
    WorkSame(s, list[..]);
    LastArrivalSame(s, list[..]);
  }

  lemma {:induction false} WorkSame(s: seq<Process>, s': seq<Process>)
    requires |s| == |s'| && forall i :: 0 <= i < |s| ==> s[i].remain == s'[i].remain
    ensures Work(s) == Work(s')
  {
    if s != [] {
      WorkSame(s[..|s| - 1], s'[..|s| - 1]);
    }
  }

  /** The first tick of process `r` is about to begin. */
  method NoteStart(list: array<Process>, r: nat, time: nat, ghost jobs: seq<Job>, ghost g: Chart, ghost running: int)
    requires Tracks(list[..], jobs, g, running) && r < list.Length && list[r].remain == list[r].burst
    modifies list
    ensures Tracks(list[..], jobs, g, running)
    ensures EndCount(list[..]) == old(EndCount(list[..]))
    ensures Measure(list[..], time) == old(Measure(list[..], time))
    ensures forall i :: 0 <= i < list.Length && i != r ==> list[i] == old(list[i])
    ensures list[r] == old(list[r]).(start := time)
  {
    ghost var s := list[..];
    list[r] := list[r].(start := time);
    TrackStarted(s, list[..], jobs, g, running, r);
    EndCountSame(s, list[..]);
    WorkSame(s, list[..]);
    LastArrivalSame(s, list[..]);
  }

  lemma TrackStarted(s: seq<Process>, s': seq<Process>, jobs: seq<Job>, g: Chart, running: int, r: nat)
    requires Tracks(s, jobs, g, running) && r < |s| && s[r].remain == s[r].burst
    requires |s'| == |s| && s' == s[r := s[r].(start := s'[r].start)]
    ensures Tracks(s', jobs, g, running)
  {
    forall i | 0 <= i < |s|
      ensures RowTracks(jobs, g, s'[i], i, running)
    {
      assert RowTracks(jobs, g, s[i], i, running);
    }
  }

  /** One tick of CPU for process `r`, whose start is noted if this is its first. */
  method RunOne(list: array<Process>, r: nat, time: nat, ghost jobs: seq<Job>, ghost g: Chart, ghost running: int)
    requires Tracks(list[..], jobs, g, running) && r < list.Length && time == |g|
    requires list[r].remain > 0 && list[r].arrival <= time
    requires list[r].remain == list[r].burst ==> list[r].start == time
    requires running != -1 ==> 0 <= running < list.Length && list[running].remain > 0
    modifies list
    ensures Tracks(list[..], jobs, g + [r], r)
    ensures EndCount(list[..]) == old(EndCount(list[..]))
    ensures Measure(list[..], time + 1) < old(Measure(list[..], time))
    ensures forall i :: 0 <= i < list.Length && i != r ==> list[i] == old(list[i])
    ensures list[r] == old(list[r]).(remain := old(list[r]).remain - 1)
  {
    hide Tracks;
    TrackRun(list[..], jobs, g, running, r);
    ghost var s := list[..];
    list[r] := list[r].(remain := list[r].remain - 1);
    assert list[..] == s[r := list[r]];
    EndCountSame(s, list[..]);
    WorkRun(s, r, list[r]);
    LastArrivalSame(s, list[..]);
  }

  /** What is left to do: work, ticks to the last arrival, processes to retire. */
  ghost function Measure(s: seq<Process>, time: int): (n: int)
  {
    Work(s) + Max(0, LastArrival(s) - time) + |s| - EndCount(s)
  }

  lemma MeasureBound(s: seq<Process>, time: int)
    requires forall i :: 0 <= i < |s| ==> s[i].remain >= 0
    ensures Measure(s, time) >= 0
  {
    WorkNonNegative(s);
  }

  /** The end of an iteration: the chosen process runs, or the CPU idles while some process is still to end. */
  method Advance(list: array<Process>, idx: int, time: nat, gantt: Chart, ghost jobs: seq<Job>, ghost running: int)
    returns (gantt': Chart)
    requires Tracks(list[..], jobs, gantt, running) && time == |gantt| && -1 <= idx < list.Length
    requires running != -1 ==> 0 <= running < list.Length && list[running].remain > 0
    requires idx == -1 ==> forall i :: 0 <= i < list.Length ==> list[i].arrival > time || list[i].end
    requires idx != -1 ==> list[idx].arrival <= time && !list[idx].end && list[idx].remain > 0
    requires idx != -1 && list[idx].remain == list[idx].burst ==> list[idx].start == time
    modifies list
    ensures Tracks(list[..], jobs, gantt', idx)
    ensures EndCount(list[..]) == old(EndCount(list[..]))
    ensures EndCount(list[..]) < list.Length ==>
              gantt' == gantt + [idx] && Measure(list[..], time + 1) < old(Measure(list[..], time))
    ensures EndCount(list[..]) == list.Length ==>
              gantt' == gantt && idx == running == -1 && Measure(list[..], time + 1) <= old(Measure(list[..], time))
    ensures forall i :: 0 <= i < list.Length && i != idx ==> list[i] == old(list[i])
    ensures idx != -1 ==> list[idx] == old(list[idx]).(remain := old(list[idx]).remain - 1)
  {
    if idx != -1 {
      hide Tracks;
      NotAllEnded(list[..], idx);
      RunOne(list, idx, time, jobs, gantt, running);
      gantt' := gantt + [idx];
    } else {
      NobodyRuns(list[..], jobs, gantt, running, time);
      hide Tracks;
      gantt' := gantt;
      if EndCount(list[..]) < list.Length {
        IdleMeansWaiting(list[..], time);
        TrackIdle(list[..], jobs, gantt);
        gantt' := gantt + [-1];
      }
    }
  }

  function Key(p: Process, byRemain: bool): (k: int)
  {
    if byRemain then p.remain else p.burst
  }

  /** The scan for the live process with the least key; the first of several. */
  method PickLeast(list: array<Process>, time: int, byRemain: bool) returns (idx: int)
    requires forall i :: 0 <= i < list.Length ==> Key(list[i], byRemain) < INT_MAX
    ensures -1 <= idx < list.Length
    ensures idx == -1 ==> forall i :: 0 <= i < list.Length ==> list[i].arrival > time || list[i].end
    ensures idx != -1 ==> list[idx].arrival <= time && !list[idx].end
    ensures forall i :: 0 <= i < list.Length && list[i].arrival <= time && !list[i].end ==>
              idx != -1 && Key(list[idx], byRemain) <= Key(list[i], byRemain)
    ensures forall i :: 0 <= i < idx && list[i].arrival <= time && !list[i].end ==>
              Key(list[idx], byRemain) < Key(list[i], byRemain)
  {
    var min := INT_MAX;
    idx := -1;
    var i := 0;
    while i < list.Length
      invariant 0 <= i <= list.Length && -1 <= idx < i
      invariant min == if idx == -1 then INT_MAX else Key(list[idx], byRemain)
      invariant idx != -1 ==> list[idx].arrival <= time && !list[idx].end
      invariant forall j :: 0 <= j < i && list[j].arrival <= time && !list[j].end ==>
                  idx != -1 && min <= Key(list[j], byRemain)
      invariant forall j :: 0 <= j < idx && list[j].arrival <= time && !list[j].end ==>
                  min < Key(list[j], byRemain)
    {
      if list[i].arrival <= time && !list[i].end && min > Key(list[i], byRemain) {
        min := Key(list[i], byRemain);
        idx := i;
      }
      i := i + 1;
    }
  }

  /** The closing loops that derive waiting, response and turnaround times. */
  method Report(list: array<Process>, preemptive: bool, ghost jobs: seq<Job>, ghost g: Chart)
    requires Tracks(list[..], jobs, g, -1) && EndCount(list[..]) == list.Length && Trimmed(g)
    modifies list
    ensures Reported(list[..], jobs, g)
    ensures forall i :: 0 <= i < list.Length ==>
              list[i].waiting == (if preemptive then list[i].finish - list[i].arrival - list[i].burst
                                  else list[i].start - list[i].arrival)
    ensures forall i :: 0 <= i < list.Length ==>
              list[i].start == old(list[i].start) && list[i].finish == old(list[i].finish)
              && list[i].burst == old(list[i].burst)
  {
    TrackEnd(list[..], jobs, g);
    JobsTracked(list[..], jobs, g);
    hide *;
    ghost var s := list[..];
    Derive(list, preemptive);
    SummariesReport(s, list[..], jobs, g, preemptive);
  }

  method Derive(list: array<Process>, preemptive: bool)
    modifies list
    ensures forall i :: 0 <= i < list.Length ==> list[i] == Summary(old(list[i]), preemptive)
  {
    var i := 0;
    while i < list.Length
      invariant 0 <= i <= list.Length
      invariant forall j :: 0 <= j < i ==> list[j] == Summary(old(list[j]), preemptive)
      invariant forall j :: i <= j < list.Length ==> list[j] == old(list[j])
    {
      var p := list[i];
      var waiting := if preemptive then p.finish - p.arrival - p.burst else p.start - p.arrival;
      list[i] := p.(waiting := waiting, response := p.start - p.arrival, turnaround := p.finish - p.arrival);
      i := i + 1;
    }
  }

  ghost function Summary(p: Process, preemptive: bool): (r: Process)
  {
    p.(waiting := if preemptive then p.finish - p.arrival - p.burst else p.start - p.arrival,
       response := p.start - p.arrival,
       turnaround := p.finish - p.arrival)
  }

  lemma JobsTracked(s: seq<Process>, jobs: seq<Job>, g: Chart)
    requires Tracks(s, jobs, g, -1)
    ensures Jobs(s) == jobs
  {
    forall i | 0 <= i < |s|
      ensures Jobs(s)[i] == jobs[i]
    {
      assert RowTracks(jobs, g, s[i], i, -1);
    }
  }

  lemma SummariesReport(s: seq<Process>, s': seq<Process>, jobs: seq<Job>, g: Chart, preemptive: bool)
    requires |s'| == |s| && Jobs(s) == jobs && Feasible(jobs, g) && Trimmed(g)
    requires forall i :: 0 <= i < |s| ==> s[i].finish == Finish(jobs, g, i, |g|) && StartedAt(g, i, s[i].start)
    requires forall i :: 0 <= i < |s| ==> s'[i] == Summary(s[i], preemptive)
    ensures Reported(s', jobs, g)
    ensures forall i :: 0 <= i < |s| ==>
              && s'[i].waiting == (if preemptive then s'[i].finish - s'[i].arrival - s'[i].burst
                                   else s'[i].start - s'[i].arrival)
              && s'[i].start == s[i].start && s'[i].finish == s[i].finish && s'[i].burst == s[i].burst
  {
    hide Feasible;
    hide Finish;
    hide StartedAt;
    assert Jobs(s') == jobs;
  }

  /** The closing loop of the program: the latest finishing time. */
  method LatestFinish(list: array<Process>, ghost jobs: seq<Job>, ghost g: Chart) returns (latest: nat)
    requires Sound(jobs) && Reported(list[..], jobs, g)
    ensures latest == MaxFinish(jobs, g, |jobs|) == |g|
  {
    ChartLength(jobs, g);
    FinishTimes(list[..], jobs, g);
    hide *;
    MaxFinishNone(jobs, g);
    latest := 0;
    var i := 0;
    while i < list.Length
      invariant 0 <= i <= list.Length && latest == MaxFinish(jobs, g, i)
    {
      MaxFinishNext(jobs, g, i);
      latest := if latest > list[i].finish then latest else list[i].finish;
      i := i + 1;
    }
  }

  lemma FinishTimes(s: seq<Process>, jobs: seq<Job>, g: Chart)
    requires Reported(s, jobs, g)
    ensures |s| == |jobs|
    ensures forall i :: 0 <= i < |s| ==> s[i].finish == Finish(jobs, g, i, |g|)
  {
  }

  lemma MaxFinishNone(jobs: seq<Job>, g: Chart)
    ensures MaxFinish(jobs, g, 0) == 0
  {
  }

  lemma MaxFinishNext(jobs: seq<Job>, g: Chart, i: nat)
    requires i < |jobs|
    ensures var m, f := MaxFinish(jobs, g, i), Finish(jobs, g, i, |g|);
            MaxFinish(jobs, g, i + 1) == if m > f then m else f
  {
  }

  // ---------- SRTF ----------

  ghost predicate ShortestSoFar(jobs: seq<Job>, g: Chart)
  {
    forall t :: 0 <= t < |g| ==> FirstShortestOf(Backlog(jobs, g, t), At(g, t))
  }

  lemma ShortestExtend(jobs: seq<Job>, g: Chart, i: int)
    requires ShortestSoFar(jobs, g) && FirstShortestOf(Backlog(jobs, g, |g|), i)
    ensures ShortestSoFar(jobs, g + [i])
  {
    hide FirstShortestOf;
    var h := g + [i];
    forall t | 0 <= t < |h|
      ensures FirstShortestOf(Backlog(jobs, h, t), At(h, t))
    {
      LeftPrefix(jobs, g, h, t);
      if t < |g| {
        assert FirstShortestOf(Backlog(jobs, g, t), At(g, t));
      }
    }
  }

  /** What the scan finds is the first of the shortest live jobs of the chart. */
  lemma PickedShortest(s: seq<Process>, jobs: seq<Job>, g: Chart, running: int, idx: int)
    requires Tracks(s, jobs, g, running) && (running != -1 ==> s[running].remain > 0)
    requires -1 <= idx < |s|
    requires idx == -1 ==> forall i :: 0 <= i < |s| ==> s[i].arrival > |g| || s[i].end
    requires idx != -1 ==> s[idx].arrival <= |g| && !s[idx].end
    requires forall i :: 0 <= i < |s| && s[i].arrival <= |g| && !s[i].end ==> idx != -1 && s[idx].remain <= s[i].remain
    requires forall i :: 0 <= i < idx && s[i].arrival <= |g| && !s[i].end ==> s[idx].remain < s[i].remain
    ensures FirstShortestOf(Backlog(jobs, g, |g|), idx)
    ensures idx != -1 ==> s[idx].remain > 0
  {
    var live := Backlog(jobs, g, |g|);
    forall i | 0 <= i < |s|
      ensures live[i] > 0 <==> s[i].arrival <= |g| && !s[i].end
      ensures live[i] == if s[i].arrival <= |g| then s[i].remain else 0
      ensures live[i] >= 0
    {
      LiveRows(s, jobs, g, running, i);
    }
  }

  /** The invariant of the SRTF loop. */
  ghost predicate SrtfLoop(s: seq<Process>, jobs: seq<Job>, g: Chart, running: int, time: nat, fin: nat, switches: nat)
  {
    && Tracks(s, jobs, g, running) && ShortestSoFar(jobs, g)
    && fin == EndCount(s) && switches == Switches(g)
    && (fin < |s| ==> time == |g|)
    && (fin == |s| ==> Trimmed(g) && running == -1)
    && forall i :: 0 <= i < |s| ==> 0 <= s[i].remain < INT_MAX
  }

  method SimulateSrtf(list: array<Process>) returns (contextSwitch: nat, gantt: Chart)
    requires Loaded(list[..]) && forall i :: 0 <= i < list.Length ==> list[i].burst < INT_MAX
    modifies list
    ensures Reported(list[..], Jobs(old(list[..])), gantt)
    ensures FirstShortest(Jobs(old(list[..])), gantt) && ShortestFirst(Jobs(old(list[..])), gantt)
    ensures contextSwitch == Switches(gantt)
    ensures forall i :: 0 <= i < list.Length ==>
              list[i].waiting == list[i].finish - list[i].arrival - list[i].burst
  {
    var fin: nat, time: nat, running: int := 0, 0, -1;
    contextSwitch, gantt := 0, [];
    ghost var jobs := Jobs(list[..]);
    TrackStart(list[..]);
    while fin < list.Length
      invariant SrtfLoop(list[..], jobs, gantt, running, time, fin, contextSwitch)
      decreases Measure(list[..], time)
    {
      MeasureBound(list[..], time);
      fin, running, contextSwitch, gantt := SrtfTick(list, fin, time, running, contextSwitch, gantt, jobs);
      time := time + 1;
    }
    hide SrtfLoop;
    SrtfDone(list[..], jobs, gantt, running, time, fin, contextSwitch);
    Report(list, true, jobs, gantt);
  }

  lemma SrtfDone(s: seq<Process>, jobs: seq<Job>, g: Chart, running: int, time: nat, fin: nat, switches: nat)
    requires SrtfLoop(s, jobs, g, running, time, fin, switches) && fin >= |s|
    ensures Tracks(s, jobs, g, -1) && EndCount(s) == |s| && Trimmed(g)
    ensures FirstShortest(jobs, g) && ShortestFirst(jobs, g) && switches == Switches(g)
  {
    hide Tracks, Feasible, FirstShortestOf, ShortestFirst;
    TrackEnd(s, jobs, g);
    FirstShortestIsShortest(jobs, g);
  }

  /** One iteration of the SRTF loop. */
  method SrtfTick(list: array<Process>, fin: nat, time: nat, running: int, contextSwitch: nat, gantt: Chart,
                  ghost jobs: seq<Job>)
    returns (fin': nat, running': int, contextSwitch': nat, gantt': Chart)
    requires fin < list.Length && SrtfLoop(list[..], jobs, gantt, running, time, fin, contextSwitch)
    modifies list
    ensures SrtfLoop(list[..], jobs, gantt', running', time + 1, fin', contextSwitch')
    ensures Measure(list[..], time + 1) < old(Measure(list[..], time))
  {
    hide *;
    fin', running', contextSwitch' := fin, running, contextSwitch;
    SrtfTop(list[..], jobs, gantt, running, time, fin, contextSwitch);
    if running' != -1 && list[running'].remain == 0 {
      Retire(list, running', time, jobs, gantt);
      running' := -1;
      fin' := fin' + 1;
    }
    var idx := PickShortest(list, time);
    PickedShortest(list[..], jobs, gantt, running', idx);
    SwitchCount(list[..], jobs, gantt, running', idx);
    ShortestExtend(jobs, gantt, idx);
    if idx != -1 {
      if running' != idx {
        contextSwitch' := contextSwitch' + 1;
      }
      if list[idx].burst == list[idx].remain {
        NoteStart(list, idx, time, jobs, gantt, running');
      }
    }
    gantt' := Advance(list, idx, time, gantt, jobs, running');
    running' := idx;
    SrtfBottom(list[..], jobs, gantt, gantt', idx, time, fin', contextSwitch');
  }

  lemma SrtfTop(s: seq<Process>, jobs: seq<Job>, g: Chart, running: int, time: nat, fin: nat, switches: nat)
    requires SrtfLoop(s, jobs, g, running, time, fin, switches) && fin < |s|
    ensures Tracks(s, jobs, g, running) && ShortestSoFar(jobs, g) && time == |g|
    ensures fin == EndCount(s) && switches == Switches(g)
    ensures -1 <= running < |s| && (running != -1 ==> Trimmed(g))
    ensures forall i :: 0 <= i < |s| ==> 0 <= s[i].remain < INT_MAX
  {
    TrackRange(s, jobs, g, running);
  }

  lemma SrtfBottom(s: seq<Process>, jobs: seq<Job>, g: Chart, g': Chart, idx: int, time: nat, fin: nat, switches: nat)
    requires Tracks(s, jobs, g', idx) && ShortestSoFar(jobs, g) && ShortestSoFar(jobs, g + [idx])
    requires fin == EndCount(s) && switches == Switches(g + [idx]) && time == |g|
    requires fin < |s| ==> g' == g + [idx]
    requires fin == |s| ==> g' == g && idx == -1 && Trimmed(g)
    requires forall i :: 0 <= i < |s| ==> 0 <= s[i].remain < INT_MAX
    ensures SrtfLoop(s, jobs, g', idx, time + 1, fin, switches)
  {
    hide Tracks, ShortestSoFar;
    SwitchesExtend(g, idx);
    EndCountBound(s);
  }

  lemma EndCountBound(s: seq<Process>)
    ensures EndCount(s) <= |s|
  {
  }

  /** The scan by remaining time. */
  method PickShortest(list: array<Process>, time: int) returns (idx: int)
    requires forall i :: 0 <= i < list.Length ==> list[i].remain < INT_MAX
    ensures -1 <= idx < list.Length
    ensures idx == -1 ==> forall i :: 0 <= i < list.Length ==> list[i].arrival > time || list[i].end
    ensures idx != -1 ==> list[idx].arrival <= time && !list[idx].end
    ensures forall i :: 0 <= i < list.Length && list[i].arrival <= time && !list[i].end ==>
              idx != -1 && list[idx].remain <= list[i].remain
    ensures forall i :: 0 <= i < idx && list[i].arrival <= time && !list[i].end ==>
              list[idx].remain < list[i].remain
  {
    idx := PickLeast(list, time, true);
  }

  lemma TrackRange(s: seq<Process>, jobs: seq<Job>, g: Chart, running: int)
    requires Tracks(s, jobs, g, running)
    ensures -1 <= running < |s|
    ensures running != -1 ==> Trimmed(g)
  {
  }

  /** A change of the running process shows in the chart. */
  lemma SwitchCount(s: seq<Process>, jobs: seq<Job>, g: Chart, running: int, idx: int)
    requires Tracks(s, jobs, g, running) && -1 <= idx < |s| && (idx != -1 ==> s[idx].remain > 0)
    ensures Switches(g + [idx]) == Switches(g) + if idx != -1 && running != idx then 1 else 0
  {
    hide RowTracks, FeasibleSoFar;
    SwitchesExtend(g, idx);
  }

  lemma NotAllEnded(s: seq<Process>, i: nat)
    requires i < |s| && !s[i].end
    ensures EndCount(s) < |s|
  {
    if EndCount(s) == |s| {
      EndCountFull(s);
    }
  }

  lemma NobodyRuns(s: seq<Process>, jobs: seq<Job>, g: Chart, running: int, time: nat)
    requires Tracks(s, jobs, g, running) && time == |g| && (running != -1 ==> s[running].remain > 0)
    requires forall i :: 0 <= i < |s| ==> s[i].arrival > time || s[i].end
    ensures running == -1
  {
    if g != [] {
      assert FeasibleAt(jobs, g, |g| - 1);
    }
  }
}
