/**
 The RR simulation: the tick loop with its non-circular array queue, proved to follow the round-robin
 state machine step by step and to stay inside the array.
 */
module RoundRobinSimulator {
  import opened Schedule
  import opened Policies
  import opened Simulation
  import opened CpuScheduler
  import opened RoundRobin
  import opened RoundRobinRuns
  import NonPreemptive

  const MAX_SIZE := 1000

  // ---------- context switches ----------

  /** The process that ran last before the end of `g`; `prev` if none did. */
  function LastRun(g: Chart, prev: int): (i: int)
  {
    if g == [] then prev else
    if g[|g| - 1] != -1 then g[|g| - 1] else LastRun(g[..|g| - 1], prev)
  }

  /** How often a process ran that was not the last to run before. */
  function Changes(g: Chart, prev: int): (n: nat)
  {
    if g == [] then 0 else
      var n := |g| - 1;
      Changes(g[..n], prev) + if g[n] != -1 && LastRun(g[..n], prev) != g[n] then 1 else 0
  }

  lemma ChangesExtend(g: Chart, i: int, prev: int)
    ensures Changes(g + [i], prev) == Changes(g, prev) + if i != -1 && LastRun(g, prev) != i then 1 else 0
    ensures LastRun(g + [i], prev) == if i != -1 then i else LastRun(g, prev)
  {
    assert (g + [i])[..|g|] == g;
  }

  /** The uninitialised first value of `prev_run` can shift the count by one, and by no more. */
  lemma {:induction false} UninitialisedPrevious(g: Chart, x: int, y: int)
    ensures Changes(g, x) <= Changes(g, y) + 1
    ensures || LastRun(g, x) == LastRun(g, y)
            || (LastRun(g, x) == x && LastRun(g, y) == y && Changes(g, x) == Changes(g, y))
  {
    if g != [] {
      UninitialisedPrevious(g[..|g| - 1], x, y);
    }
  }

  // ---------- the array queue ----------

  /** The live part of the array is the queue of the machine; the slice matters while a process runs. */
  ghost predicate Mirrors(q: seq<nat>, head: nat, tail: nat, running: int, slice: int, st: State)
  {
    && |q| == MAX_SIZE && head <= tail <= MAX_SIZE
    && st.queue == q[head..tail] && st.head == head && st.running == running
    && (running != -1 ==> st.slice == slice)
  }

  lemma PushMirrors(q: seq<nat>, head: nat, tail: nat, i: nat, st: State, t: int)
    requires Mirrors(q, head, tail, st.running, st.slice, st) && tail < MAX_SIZE && i < |st.since|
    ensures Mirrors(q[tail := i], head, tail + 1, st.running, st.slice, Join(st, i, t))
  {
    assert q[tail := i][head..tail + 1] == q[head..tail] + [i];
  }

  ghost predicate Synced(s: seq<Process>, jobs: seq<Job>, st: State)
  {
    && |s| == |jobs| == |st.left|
    && forall i :: 0 <= i < |s| ==>
         s[i].remain == st.left[i] && s[i].arrival == jobs[i].arrival && s[i].burst == jobs[i].burst
  }

  lemma TrackSynced(s: seq<Process>, jobs: seq<Job>, g: Chart, running: int, st: State)
    requires Tracks(s, jobs, g, running) && st.left == Left(jobs, g, |g|)
    ensures Synced(s, jobs, st)
  {
    forall i | 0 <= i < |s|
      ensures s[i].remain == st.left[i] && s[i].arrival == jobs[i].arrival && s[i].burst == jobs[i].burst
    {
      assert RowTracks(jobs, g, s[i], i, running);
    }
  }

  /** There is room for every push the machine makes. */
  lemma PushRoom(q: seq<nat>, head: nat, tail: nat, st: State, st': State, jobs: seq<Job>, quantum: nat, t: int, m: nat)
    requires Mirrors(q, head, tail, st.running, st.slice, st)
    requires Inv(jobs, quantum, st', t, m) && st'.head == st.head && |st'.queue| == |st.queue| + 1
    requires quantum >= 1 && AllQuanta(jobs, quantum) <= MAX_SIZE
    ensures tail < MAX_SIZE && |q| == MAX_SIZE
  {
    hide Inv;
    TailBound(jobs, quantum, st', t, m);
  }

  /** `queue[tail++] = i`, where the machine lets `i` join. */
  method Push(queue: array<nat>, head: nat, tail: nat, i: nat, t: int, ghost st: State, ghost st': State,
              ghost jobs: seq<Job>, ghost quantum: nat, ghost m: nat) returns (tail': nat)
    requires Mirrors(queue[..], head, tail, st.running, st.slice, st)
    requires i < |st.since| && Inv(jobs, quantum, st', t, m)
    requires st' == Join(st, i, t) || st' == Join(st, i, t).(running := -1)
    requires quantum >= 1 && AllQuanta(jobs, quantum) <= MAX_SIZE
    modifies queue
    ensures Mirrors(queue[..], head, tail', st'.running, st'.slice, st') && tail' == tail + 1
  {
    hide Inv;
    PushRoom(queue[..], head, tail, st, st', jobs, quantum, t, m);
    PushMirrors(queue[..], head, tail, i, st, t);
    ghost var q := queue[..];
    queue[tail] := i;
    assert queue[..] == q[tail := i];
    tail' := tail + 1;
  }

  lemma ArriveNext(jobs: seq<Job>, quantum: nat, st: State, t: int, i: nat)
    requires |st.since| == |jobs| && i < |jobs| && Inv(jobs, quantum, Arrive(jobs, st, t, i), t, i)
    ensures Arrive(jobs, st, t, i + 1)
            == if jobs[i].arrival == t then Join(Arrive(jobs, st, t, i), i, t) else Arrive(jobs, st, t, i)
    ensures Inv(jobs, quantum, Arrive(jobs, st, t, i + 1), t, i + 1)
  {
    hide Inv;
    ArriveOne(jobs, quantum, Arrive(jobs, st, t, i), t, i);
  }

  /** The loop that pushes the processes arriving now. */
  method PushArrivals(list: array<Process>, queue: array<nat>, head: nat, tail: nat, time: nat,
                      ghost jobs: seq<Job>, ghost quantum: nat, ghost st: State) returns (tail': nat)
    requires list.Length == |jobs| && |st.since| == |jobs| && quantum >= 1
    requires forall i :: 0 <= i < list.Length ==> list[i].arrival == jobs[i].arrival
    requires Inv(jobs, quantum, st, time, 0)
    requires Mirrors(queue[..], head, tail, st.running, st.slice, st) && AllQuanta(jobs, quantum) <= MAX_SIZE
    modifies queue
    ensures Mirrors(queue[..], head, tail', st.running, st.slice, Arrive(jobs, st, time, |jobs|))
    ensures Inv(jobs, quantum, Arrive(jobs, st, time, |jobs|), time, |jobs|)
  {
    hide *;
    ArriveNone(jobs, st, time);
    tail' := tail;
    var i := 0;
    while i < list.Length
      invariant 0 <= i <= list.Length
      invariant Mirrors(queue[..], head, tail', st.running, st.slice, Arrive(jobs, st, time, i))
      invariant Arrive(jobs, st, time, i).slice == st.slice
      invariant Inv(jobs, quantum, Arrive(jobs, st, time, i), time, i)
    {
      ArriveNext(jobs, quantum, st, time, i);
      JoinKeeps(Arrive(jobs, st, time, i), i, time);
      if time == list[i].arrival {
        tail' := Push(queue, head, tail', i, time, Arrive(jobs, st, time, i), Arrive(jobs, st, time, i + 1),
                      jobs, quantum, i + 1);
      }
      i := i + 1;
    }
  }

  lemma ArriveNone(jobs: seq<Job>, st: State, t: int)
    requires |st.since| == |jobs|
    ensures Arrive(jobs, st, t, 0) == st
  {
  }

  lemma JoinKeeps(st: State, i: nat, t: int)
    requires i < |st.since|
    ensures Join(st, i, t).slice == st.slice && Join(st, i, t).running == st.running
  {
  }

  // ---------- one iteration ----------

  /**
   What the program's slice counter lacks to the machine's: nothing for a time slice of at least one tick. A
   counter that starts at zero or below is negative whenever it is tested, and the machine's has not run out.
   */
  ghost predicate Lagging(s: seq<Process>, running: int, slice: int, lag: int)
  {
    lag == 0 || (0 <= running < |s| && s[running].remain != 0 ==> slice < 0 < slice + lag)
  }

  /** The three things that can happen to the running process before the next is chosen. */
  lemma SettleCases(jobs: seq<Job>, quantum: nat, st: State, t: int)
    requires Inv(jobs, quantum, st, t, |jobs|) && WellSized(|jobs|, st)
    ensures Inv(jobs, quantum, Settle(st, t), t, |jobs|) && |st.since| == |jobs| == |st.left|
    ensures -1 <= st.running < |jobs| && Settle(st, t).left == st.left
    ensures st.running != -1 && st.left[st.running] == 0 ==> Settle(st, t) == st.(running := -1)
    ensures st.running != -1 && st.left[st.running] != 0 && st.slice == 0 ==>
              Settle(st, t) == Join(st, st.running, t).(running := -1)
    ensures st.running == -1 || (st.left[st.running] != 0 && st.slice != 0) ==> Settle(st, t) == st
    ensures st.running != -1 ==> st.left[st.running] >= 0
  {
    SettleKeeps(jobs, quantum, st, t, |jobs|);
    hide Waits, Accumulated;
  }

  lemma MirrorsIs(q: seq<nat>, head: nat, tail: nat, running: int, slice: int, st: State)
    requires Mirrors(q, head, tail, running, slice, st)
    ensures st.running == running && (running != -1 ==> st.slice == slice)
    ensures Mirrors(q, head, tail, st.running, st.slice, st)
    ensures Mirrors(q, head, tail, -1, slice, st.(running := -1))
  {
  }

  lemma SyncedRow(s: seq<Process>, jobs: seq<Job>, st: State, i: nat, p: Process)
    requires Synced(s, jobs, st) && i < |s|
    ensures |s| == |jobs| == |st.left| && s[i].remain == st.left[i]
    ensures p.remain == s[i].remain && p.arrival == s[i].arrival && p.burst == s[i].burst ==>
              Synced(s[i := p], jobs, st)
  {
  }

  /** A finished process is retired; one whose slice is used up goes to the back of the queue. */
  method SettleRunning(list: array<Process>, queue: array<nat>, fin: nat, time: nat, running: int, slice: int,
                       head: nat, tail: nat, ghost lag: int,
                       ghost jobs: seq<Job>, ghost quantum: nat, ghost g: Chart, ghost st: State)
    returns (fin': nat, running': int, tail': nat, ghost tracked: int)
    requires Tracks(list[..], jobs, g, running) && time == |g| && fin == EndCount(list[..])
    requires Synced(list[..], jobs, st) && Inv(jobs, quantum, st, time, |jobs|)
    requires quantum >= 1 && WellSized(|jobs|, st) && Lagging(list[..], running, slice, lag)
    requires Mirrors(queue[..], head, tail, running, slice + lag, st) && AllQuanta(jobs, quantum) <= MAX_SIZE
    modifies list, queue
    ensures Mirrors(queue[..], head, tail', running', slice + lag, Settle(st, time))
    ensures Tracks(list[..], jobs, g, tracked) && fin' == EndCount(list[..])
    ensures tracked != -1 ==> 0 <= tracked < list.Length && list[tracked].remain > 0
    ensures running' == -1 || running' == tracked == running
    ensures fin' == fin || fin' == fin + 1
    ensures fin' == fin ==> Measure(list[..], time) == old(Measure(list[..], time))
    ensures fin' > fin ==> Measure(list[..], time) < old(Measure(list[..], time)) && tracked == -1 && Trimmed(g)
    ensures Synced(list[..], jobs, st)
  {
    hide *;
    fin', running', tail', tracked := fin, running, tail, running;
    SettleCases(jobs, quantum, st, time);
    MirrorsIs(queue[..], head, tail, running, slice + lag, st);
    TrackRange(list[..], jobs, g, running);
    if running != -1 {
      SyncedRow(list[..], jobs, st, running, list[running].(finish := time, end := true));
      LaggingTest(list[..], running, slice, lag);
      if list[running].remain == 0 {
        Retire(list, running, time, jobs, g);
        fin', running', tracked := fin + 1, -1, -1;
      } else if slice == 0 {
        tail' := Push(queue, head, tail, running, time, st, Settle(st, time), jobs, quantum, |jobs|);
        MirrorsStop(queue[..], head, tail', Settle(st, time), slice + lag);
        running' := -1;
      }
    }
  }

  lemma LaggingTest(s: seq<Process>, running: int, slice: int, lag: int)
    requires Lagging(s, running, slice, lag) && 0 <= running < |s|
    ensures s[running].remain != 0 ==> (slice == 0 <==> slice + lag == 0)
  {
  }

  lemma MirrorsStop(q: seq<nat>, head: nat, tail: nat, st: State, slice: int)
    requires Mirrors(q, head, tail, st.running, st.slice, st) && st.running == -1
    ensures Mirrors(q, head, tail, -1, slice, st)
  {
  }

  /** A free CPU takes the head of the queue, noting a first start and a context switch. */
  method TakeNext(list: array<Process>, queue: array<nat>, time: nat, running: int, slice: int, head: nat, tail: nat,
                  timeSlice: int, prev: int, switches: nat, ghost lag: int,
                  ghost jobs: seq<Job>, ghost quantum: nat, ghost g: Chart, ghost st: State, ghost tracked: int)
    returns (running': int, slice': int, head': nat, switches': nat)
    requires Tracks(list[..], jobs, g, tracked) && time == |g| && Synced(list[..], jobs, st)
    requires WellSized(|jobs|, st) && Mirrors(queue[..], head, tail, running, slice + lag, st)
    requires running != -1 ==> prev == running
    requires quantum == timeSlice + lag
    modifies list
    ensures st.running < |st.left| && Mirrors(queue[..], head', tail, running', slice' + lag, Dispatch(st, quantum))
    ensures Tracks(list[..], jobs, g, tracked) && EndCount(list[..]) == old(EndCount(list[..]))
    ensures Measure(list[..], time) == old(Measure(list[..], time))
    ensures Synced(list[..], jobs, st)
    ensures running == -1 && running' != -1 && list[running'].remain == list[running'].burst ==>
              list[running'].start == time
    ensures switches' == switches + if running' != -1 && prev != running' then 1 else 0
    ensures running != -1 ==> running' == running && list[..] == old(list[..])
  {
    running', slice', head', switches' := running, slice, head, switches;
    hide Tracks;
    if running == -1 {
      slice' := timeSlice;
      if head != tail {
        assert st.queue == [queue[head]] + queue[head + 1..tail];
        running' := queue[head];
        head' := head + 1;
        if list[running'].burst == list[running'].remain {
          NoteStart(list, running', time, jobs, g, tracked);
        }
        if prev != running' {
          switches' := switches' + 1;
        }
      }
    }
  }

  /** The invariant of the RR loop. */
  ghost predicate Looping(s: seq<Process>, q: seq<nat>, jobs: seq<Job>, quantum: nat, g: Chart,
                          running: int, slice: int, time: nat, fin: nat, head: nat, tail: nat)
  {
    && Tracks(s, jobs, g, running) && fin == EndCount(s)
    && Startable(jobs, quantum) && AllQuanta(jobs, quantum) <= MAX_SIZE
    && Drawn(jobs, quantum, g)
    && (fin < |s| ==> time == |g| && Mirrors(q, head, tail, running, slice, StateAt(jobs, quantum, time)))
    && (fin == |s| ==> Trimmed(g) && running == -1 && head == tail == AllQuanta(jobs, quantum))
  }

  /** The dispatched machine has nobody to run only if every process that is here has ended. */
  lemma NobodyLeft(s: seq<Process>, jobs: seq<Job>, quantum: nat, g: Chart, tracked: int, st: State, t: nat)
    requires Tracks(s, jobs, g, tracked) && (tracked != -1 ==> s[tracked].remain > 0) && Synced(s, jobs, st)
    requires Inv(jobs, quantum, st, t, |jobs|) && st.running == -1 && st.queue == []
    ensures forall i :: 0 <= i < |s| ==> s[i].arrival > t || s[i].end
  {
    hide Waits;
    hide Accumulated;
    forall i | 0 <= i < |s|
      ensures s[i].arrival > t || s[i].end
    {
      assert RowTracks(jobs, g, s[i], i, tracked);
    }
  }

  /** The process about to run is live. */
  lemma SomebodyRuns(s: seq<Process>, jobs: seq<Job>, quantum: nat, g: Chart, tracked: int, st: State, t: nat)
    requires Tracks(s, jobs, g, tracked) && Synced(s, jobs, st)
    requires Inv(jobs, quantum, st, t, |jobs|) && st.running != -1 && st.left[st.running] > 0
    ensures 0 <= st.running < |s| && s[st.running].arrival <= t && !s[st.running].end && s[st.running].remain > 0
  {
    hide Waits;
    hide Accumulated;
    assert RowTracks(jobs, g, s[st.running], st.running, tracked);
  }

  /** The end of an iteration, from the machine's state after dispatching. */
  method RunOrIdle(list: array<Process>, time: nat, running: int, gantt: Chart, ghost quantum: nat,
                   ghost jobs: seq<Job>, ghost st: State, ghost tracked: int) returns (gantt': Chart)
    requires Tracks(list[..], jobs, gantt, tracked) && time == |gantt| && Synced(list[..], jobs, st)
    requires tracked != -1 ==> 0 <= tracked < list.Length && list[tracked].remain > 0
    requires Inv(jobs, quantum, st, time, |jobs|) && st.running == running
    requires running != -1 ==> 0 <= running < |st.left| && st.left[running] > 0
    requires running == -1 ==> st.queue == []
    requires running != -1 && 0 <= running < list.Length && list[running].remain == list[running].burst ==>
               list[running].start == time
    modifies list
    ensures Tracks(list[..], jobs, gantt', running)
    ensures EndCount(list[..]) == old(EndCount(list[..]))
    ensures EndCount(list[..]) < list.Length ==>
              gantt' == gantt + [running] && Measure(list[..], time + 1) < old(Measure(list[..], time))
    ensures EndCount(list[..]) == list.Length ==>
              gantt' == gantt && running == -1 && Measure(list[..], time + 1) <= old(Measure(list[..], time))
    ensures running == -1 ==> list[..] == old(list[..])
  {
    hide Inv;
    hide Tracks;
    hide Measure;
    if running == -1 {
      NobodyLeft(list[..], jobs, quantum, gantt, tracked, st, time);
    } else {
      SomebodyRuns(list[..], jobs, quantum, gantt, tracked, st, time);
    }
    gantt' := Advance(list, running, time, gantt, jobs, tracked);
  }

  /** The machine state at the top of an iteration, ready for use. */
  lemma TopOfLoop(s: seq<Process>, q: seq<nat>, jobs: seq<Job>, quantum: nat, g: Chart, running: int, slice: int,
                  time: nat, fin: nat, head: nat, tail: nat, garbage: int)
    requires Looping(s, q, jobs, quantum, g, running, slice, time, fin, head, tail) && fin < |s|
    ensures quantum >= 1 && AllQuanta(jobs, quantum) <= MAX_SIZE
    ensures Tracks(s, jobs, g, running) && fin == EndCount(s) && time == |g|
    ensures var st := StateAt(jobs, quantum, time);
            && Inv(jobs, quantum, st, time, 0) && WellSized(|jobs|, st) && Synced(s, jobs, st)
            && Mirrors(q, head, tail, running, slice, st) && st.running == running
            && (running != -1 ==> st.slice == slice)
    ensures forall i :: 0 <= i < |s| ==> i < |jobs| && s[i].arrival == jobs[i].arrival
    ensures running != -1 ==>
              0 <= running < |s| && s[running].remain < s[running].burst && LastRun(g, garbage) == running
    ensures |s| == |jobs| && Startable(jobs, quantum) && Drawn(jobs, quantum, g)
  {
    hide Inv;
    hide StateAt;
    StateInv(jobs, quantum, time);
    DrawnLeft(jobs, quantum, g, time);
    TrackSynced(s, jobs, g, running, StateAt(jobs, quantum, time));
    hide Left;
    if running != -1 {
      NonPreemptive.RunningBegun(s, jobs, g, running);
    }
  }

  /** The whole iteration is one step of the machine. */
  lemma BottomOfLoop(jobs: seq<Job>, quantum: nat, g: Chart, time: nat)
    requires Startable(jobs, quantum) && Drawn(jobs, quantum, g) && time == |g|
    ensures WellSized(|jobs|, StateAt(jobs, quantum, time))
    ensures WellSized(|jobs|, Arrive(jobs, StateAt(jobs, quantum, time), time, |jobs|))
    ensures var c := Dispatch(Settle(Arrive(jobs, StateAt(jobs, quantum, time), time, |jobs|), time), quantum);
            && StateAt(jobs, quantum, time + 1) == Tick(c)
            && Drawn(jobs, quantum, g + [c.running])
  {
    var st := StateAt(jobs, quantum, time);
    ArriveSized(jobs, st, time, |jobs|);
    var c := Dispatch(Settle(Arrive(jobs, st, time, |jobs|), time), quantum);
    assert StateAt(jobs, quantum, time + 1) == Tick(c);
    hide StateAt;
    var h := g + [c.running];
    forall t | 0 <= t < |h|
      ensures h[t] == StateAt(jobs, quantum, t + 1).running
    {
      if t < |g| {
        assert g[t] == StateAt(jobs, quantum, t + 1).running;
      }
    }
  }

  /** When every process has ended, so have all pushes and pops. */
  lemma AllPopped(s: seq<Process>, q: seq<nat>, jobs: seq<Job>, quantum: nat, g: Chart, st: State, time: nat,
                  running: int, slice: int, head: nat, tail: nat)
    requires Tracks(s, jobs, g, -1) && EndCount(s) == |s| && Synced(s, jobs, st)
    requires Inv(jobs, quantum, st, time, |jobs|) && Mirrors(q, head, tail, running, slice, st) && quantum >= 1
    ensures head == tail == AllQuanta(jobs, quantum)
  {
    EndCountFull(s);
    forall i | 0 <= i < |s|
      ensures s[i].remain == 0
    {
      assert RowTracks(jobs, g, s[i], i, -1);
    }
    hide Inv;
    hide Tracks;
    TailAtEnd(jobs, quantum, st, time, |jobs|);
  }

  lemma KeepsAll(jobs: seq<Job>, quantum: nat, a: State, time: nat)
    requires Inv(jobs, quantum, a, time, |jobs|) && WellSized(|jobs|, a)
    ensures WellSized(|jobs|, Settle(a, time))
    ensures var c := Dispatch(Settle(a, time), quantum);
            && Inv(jobs, quantum, c, time, |jobs|)
            && (c.running != -1 ==> 0 <= c.running < |c.left| && c.left[c.running] > 0)
            && (c.running == -1 ==> c.queue == [])
            && c.left == a.left
  {
    SettleKeeps(jobs, quantum, a, time, |jobs|);
    DispatchKeeps(jobs, quantum, Settle(a, time), time, |jobs|);
    hide Inv;
  }

  lemma SyncedLeft(s: seq<Process>, jobs: seq<Job>, st: State, st': State)
    requires Synced(s, jobs, st) && st'.left == st.left
    ensures Synced(s, jobs, st')
  {
  }

  /** How the program's slice counter relates to the machine's. */
  ghost predicate Paced(jobs: seq<Job>, quantum: nat, timeSlice: int, lag: int)
  {
    quantum == timeSlice + lag && (lag == 0 || (timeSlice <= 0 && NeverOut(jobs, quantum)))
  }

  lemma PacedLag(s: seq<Process>, jobs: seq<Job>, quantum: nat, timeSlice: int, lag: int, time: nat,
                 running: int, slice: int)
    requires Startable(jobs, quantum) && Paced(jobs, quantum, timeSlice, lag)
    requires running == StateAt(jobs, quantum, time).running
    requires running != -1 ==> slice + lag == StateAt(jobs, quantum, time).slice
    ensures Lagging(s, running, slice, lag) && quantum == timeSlice + lag
  {
    hide StateAt, Startable;
    RunSliceUse(jobs, quantum, time);
  }

  /** One iteration of the RR loop. */
  method RrTick(list: array<Process>, queue: array<nat>, timeSlice: int, fin: nat, time: nat, running: int, slice: int,
                head: nat, tail: nat, prev: int, switches: nat, gantt: Chart,
                ghost jobs: seq<Job>, ghost quantum: nat, ghost lag: int, ghost garbage: int)
    returns (fin': nat, running': int, slice': int, head': nat, tail': nat, prev': int, switches': nat, gantt': Chart)
    requires Looping(list[..], queue[..], jobs, quantum, gantt, running, slice + lag, time, fin, head, tail)
    requires Paced(jobs, quantum, timeSlice, lag) && fin < list.Length
    requires prev == LastRun(gantt, garbage) && switches == Changes(gantt, garbage)
    modifies list, queue
    ensures Looping(list[..], queue[..], jobs, quantum, gantt', running', slice' + lag, time + 1, fin', head', tail')
    ensures prev' == LastRun(gantt', garbage) && switches' == Changes(gantt', garbage)
    ensures Measure(list[..], time + 1) < old(Measure(list[..], time))
  {
    hide Inv, StateAt, Arrive, Tracks, Looping, Synced, Drawn, Startable, Lagging, Paced;
    hide Measure, Changes, LastRun, EndCount, AllQuanta;
    TopOfLoop(list[..], queue[..], jobs, quantum, gantt, running, slice + lag, time, fin, head, tail, garbage);
    PacedLag(list[..], jobs, quantum, timeSlice, lag, time, running, slice);
    BottomOfLoop(jobs, quantum, gantt, time);
    ghost var st := StateAt(jobs, quantum, time);
    ghost var a := Arrive(jobs, st, time, |jobs|);
    tail' := PushArrivals(list, queue, head, tail, time, jobs, quantum, st);
    KeepsAll(jobs, quantum, a, time);
    SyncedLeft(list[..], jobs, st, a);
    ghost var tracked;
    fin', running', tail', tracked :=
      SettleRunning(list, queue, fin, time, running, slice, head, tail', lag, jobs, quantum, gantt, a);
    ghost var b := Settle(a, time);
    hide Settle;
    SyncedLeft(list[..], jobs, a, b);
    running', slice', head', switches' :=
      TakeNext(list, queue, time, running', slice, head, tail', timeSlice, prev, switches, lag,
               jobs, quantum, gantt, b, tracked);
    ghost var c := Dispatch(b, quantum);
    hide Dispatch;
    SyncedLeft(list[..], jobs, b, c);
    ghost var s := list[..];
    gantt' := RunOrIdle(list, time, running', gantt, quantum, jobs, c, tracked);
    ChangesExtend(gantt, running', garbage);
    LoopEnd(s, list[..], queue[..], jobs, quantum, gantt, gantt', c, running', slice' + lag, time, fin', head', tail');
    prev' := prev;
    if running' != -1 {
      prev', slice' := running', slice' - 1;
    }
  }

  lemma LoopEnd(before: seq<Process>, s: seq<Process>, q: seq<nat>, jobs: seq<Job>, quantum: nat,
                g: Chart, g': Chart, c: State, running: int, slice: int, time: nat, fin: nat, head: nat, tail: nat)
    requires Startable(jobs, quantum) && AllQuanta(jobs, quantum) <= MAX_SIZE
    requires Tracks(s, jobs, g', running) && fin == EndCount(s) && time == |g|
    requires Mirrors(q, head, tail, running, slice, c) && Inv(jobs, quantum, c, time, |jobs|)
    requires Drawn(jobs, quantum, g) && Drawn(jobs, quantum, g + [running])
    requires StateAt(jobs, quantum, time + 1) == Tick(c)
    requires fin < |s| ==> g' == g + [running]
    requires fin == |s| ==> g' == g && running == -1 && Trimmed(g) && before == s
    requires Synced(before, jobs, c)
    ensures Looping(s, q, jobs, quantum, g', running, if running == -1 then slice else slice - 1, time + 1,
                    fin, head, tail)
  {
    hide Inv, Tracks, StateAt, Drawn;
    if fin == |s| {
      AllPopped(s, q, jobs, quantum, g, c, time, running, slice, head, tail);
    }
  }

  lemma LoopStart(s: seq<Process>, q: seq<nat>, quantum: nat, slice: int)
    requires Loaded(s) && |q| == MAX_SIZE && Startable(Jobs(s), quantum) && AllQuanta(Jobs(s), quantum) <= MAX_SIZE
    ensures Looping(s, q, Jobs(s), quantum, [], -1, slice, 0, 0, 0, 0)
  {
    TrackStart(s);
    hide Tracks;
    if s == [] {
      assert AllQuanta(Jobs(s), quantum) == 0;
    }
  }

  lemma LoopingBound(s: seq<Process>, q: seq<nat>, jobs: seq<Job>, quantum: nat, g: Chart, running: int, slice: int,
                     time: nat, fin: nat, head: nat, tail: nat)
    requires Looping(s, q, jobs, quantum, g, running, slice, time, fin, head, tail)
    ensures Measure(s, time) >= 0
  {
    forall i | 0 <= i < |s|
      ensures s[i].remain >= 0
    {
      RemainAtMostBurst(s, jobs, g, running, i);
    }
    MeasureBound(s, time);
  }

  lemma LoopDone(s: seq<Process>, q: seq<nat>, jobs: seq<Job>, quantum: nat, g: Chart, running: int, slice: int,
                 time: nat, fin: nat, head: nat, tail: nat)
    requires Looping(s, q, jobs, quantum, g, running, slice, time, fin, head, tail) && fin >= |s|
    ensures Tracks(s, jobs, g, -1) && EndCount(s) == |s| && Trimmed(g)
    ensures RoundRobinChart(jobs, quantum, g) && head == tail == AllQuanta(jobs, quantum)
  {
    hide Tracks, Drawn, AllQuanta;
    TrackEnd(s, jobs, g);
  }

  /**
   The whole simulation. `uninitialised` is whatever value `prev_run` has before it is first assigned.
   The queue array is large enough whenever all processes together need at most MAX_SIZE slices. A time slice
   of zero or less is one that never runs out.
   */
  method SimulateRr(list: array<Process>, timeSlice: int, uninitialised: int)
    returns (contextSwitch: nat, gantt: Chart, head: nat, tail: nat)
    requires Loaded(list[..]) && Startable(Jobs(list[..]), Effective(Jobs(list[..]), timeSlice))
    requires AllQuanta(Jobs(list[..]), Effective(Jobs(list[..]), timeSlice)) <= MAX_SIZE
    modifies list
    ensures Reported(list[..], Jobs(old(list[..])), gantt)
    ensures var jobs := Jobs(old(list[..])); var quantum := Effective(jobs, timeSlice);
            && RoundRobinChart(jobs, quantum, gantt)
            && head == tail == AllQuanta(jobs, quantum)
    ensures contextSwitch == Changes(gantt, uninitialised)
    ensures forall i :: 0 <= i < list.Length ==>
              list[i].waiting == list[i].finish - list[i].arrival - list[i].burst
  {
    ghost var jobs := Jobs(list[..]);
    ghost var quantum := Effective(jobs, timeSlice);
    ghost var lag := quantum - timeSlice;
    assert Paced(jobs, quantum, timeSlice, lag);
    var queue := new nat[MAX_SIZE];
    contextSwitch, gantt, head, tail := 0, [], 0, 0;
    var slice: int := *;
    var fin: nat, time: nat, running: int, prev := 0, 0, -1, uninitialised;
    assert Changes(gantt, uninitialised) == 0 && LastRun(gantt, uninitialised) == uninitialised;
    hide *;
    LoopStart(list[..], queue[..], quantum, slice + lag);
    while fin < list.Length
      invariant Looping(list[..], queue[..], jobs, quantum, gantt, running, slice + lag, time, fin, head, tail)
      invariant prev == LastRun(gantt, uninitialised) && contextSwitch == Changes(gantt, uninitialised)
      decreases Measure(list[..], time)
    {
      LoopingBound(list[..], queue[..], jobs, quantum, gantt, running, slice + lag, time, fin, head, tail);
      fin, running, slice, head, tail, prev, contextSwitch, gantt :=
        RrTick(list, queue, timeSlice, fin, time, running, slice, head, tail, prev, contextSwitch, gantt,
               jobs, quantum, lag, uninitialised);
      time := time + 1;
    }
    LoopDone(list[..], queue[..], jobs, quantum, gantt, running, slice + lag, time, fin, head, tail);
    Report(list, true, jobs, gantt);
  }
}
