/**
 What the round-robin invariant means for whole runs: how long a process waits between its turns, and that a
 slice longer than every burst, or one that never counts down to zero, makes round robin first come, first served.
 */
module RoundRobinRuns {
  import opened Schedule
  import opened Policies
  import opened RoundRobin

  // ---------- from the queue to the CPU ----------

  /** In every run, a process taken from the queue joined it at most one longest wait before. */
  lemma DispatchedInTime(jobs: seq<Job>, quantum: nat, t: nat)
    requires Startable(jobs, quantum)
    ensures WellSized(|jobs|, Arrive(jobs, StateAt(jobs, quantum, t), t, |jobs|))
    ensures var a := Settle(Arrive(jobs, StateAt(jobs, quantum, t), t, |jobs|), t);
            a.running == -1 && a.queue != [] ==>
              a.queue[0] < |a.since| && t - a.since[a.queue[0]] <= LongestWait(jobs, quantum)
  {
    var st := StateAt(jobs, quantum, t);
    StateInv(jobs, quantum, t);
    ArriveSized(jobs, st, t, |jobs|);
    hide StateAt, Arrive, LongestWait, Inv;
    ArriveKeeps(jobs, quantum, st, t, |jobs|);
    var a := Arrive(jobs, st, t, |jobs|);
    SettleKeeps(jobs, quantum, a, t, |jobs|);
    if Settle(a, t).running == -1 && Settle(a, t).queue != [] {
      HeadWaited(jobs, quantum, Settle(a, t), t, |jobs|);
    }
  }

  /** A process that waits does not join again. */
  lemma {:induction false} ArriveWaiting(jobs: seq<Job>, st: State, t: int, m: nat, i: nat)
    requires |st.since| == |jobs| && m <= |jobs| && i < |jobs| && jobs[i].arrival != t
    ensures var r := Arrive(jobs, st, t, m); (i in st.queue ==> i in r.queue) && r.since[i] == st.since[i]
    ensures Arrive(jobs, st, t, m).slice == st.slice
  {
    if m > 0 {
      ArriveWaiting(jobs, st, t, m - 1, i);
    }
  }

  lemma QueueFacts(jobs: seq<Job>, quantum: nat, st: State, t: int, m: nat, i: nat)
    requires Inv(jobs, quantum, st, t, m) && i < |jobs| && (i in st.queue || i == st.running)
    ensures Shape(jobs, st) && WellSized(|jobs|, st) && Here(jobs, t, m, i)
    ensures i in st.queue ==> i != st.running && st.left[i] > 0
  {
    hide Waits, Accumulated;
  }

  /** One iteration of a waiting process: it goes on waiting, or it gets the CPU in time. */
  lemma StepWaiting(jobs: seq<Job>, quantum: nat, st: State, t: int, i: nat)
    requires WellSized(|jobs|, st) && Inv(jobs, quantum, st, t, 0) && i < |jobs| && i in st.queue
    ensures var r := Step(jobs, quantum, st, t);
            && (r.running != i ==> i in r.queue && r.since[i] == st.since[i])
            && (r.running == i ==> t - st.since[i] <= LongestWait(jobs, quantum))
  {
    QueueFacts(jobs, quantum, st, t, 0, i);
    ArriveWaiting(jobs, st, t, |jobs|, i);
    ArriveKeeps(jobs, quantum, st, t, |jobs|);
    var a := Arrive(jobs, st, t, |jobs|);
    QueueFacts(jobs, quantum, a, t, |jobs|, i);
    SettleKeeps(jobs, quantum, a, t, |jobs|);
    hide Inv, Arrive, LongestWait;
    var b := Settle(a, t);
    QueueFacts(jobs, quantum, b, t, |jobs|, i);
    DispatchWaiting(jobs, quantum, b, t, i);
  }

  lemma DispatchWaiting(jobs: seq<Job>, quantum: nat, b: State, t: int, i: nat)
    requires WellSized(|jobs|, b) && Inv(jobs, quantum, b, t, |jobs|) && i < |jobs| && i in b.queue && i != b.running
    ensures var r := Tick(Dispatch(b, quantum));
            && (r.running != i ==> i in r.queue && r.since[i] == b.since[i])
            && (r.running == i ==> t - b.since[i] <= LongestWait(jobs, quantum))
  {
    if b.running == -1 {
      HeadWaited(jobs, quantum, b, t, |jobs|);
      assert b.queue == [b.queue[0]] + b.queue[1..];
    }
    hide Inv, LongestWait;
  }

  /** One iteration of the running process: if it loses the CPU unfinished, it joins the queue now. */
  lemma StepLeaves(jobs: seq<Job>, quantum: nat, st: State, t: int, i: nat)
    requires WellSized(|jobs|, st) && Inv(jobs, quantum, st, t, 0) && i < |jobs| && i == st.running && st.left[i] > 0
    ensures var r := Step(jobs, quantum, st, t);
            r.running != i ==> i in r.queue && r.since[i] == t
  {
    QueueFacts(jobs, quantum, st, t, 0, i);
    ArriveWaiting(jobs, st, t, |jobs|, i);
    ArriveSized(jobs, st, t, |jobs|);
    hide Inv, Arrive;
    var b := Settle(Arrive(jobs, st, t, |jobs|), t);
    if b.running == -1 {
      assert b.queue[|b.queue| - 1] == i;
      assert b.queue == [b.queue[0]] + b.queue[1..];
    }
  }

  // ---------- between two turns ----------

  ghost predicate AwayBetween(g: Chart, i: int, u: nat, v: nat)
  {
    u < v < |g| && g[u] == i && forall w :: u < w < v ==> g[w] != i
  }

  lemma {:induction false} LeftWhileAway(jobs: seq<Job>, g: Chart, i: nat, u: nat, v: nat, t: nat)
    requires i < |jobs| && AwayBetween(g, i, u, v) && u < t <= v
    ensures Left(jobs, g, t)[i] == Left(jobs, g, v)[i]
    decreases v - t
  {
    if t < v {
      LeftWhileAway(jobs, g, i, u, v, t + 1);
    }
  }

  /** While it is away, process `i` is in the queue, where it has been since the tick after `u`. */
  lemma {:induction false} QueuedSince(jobs: seq<Job>, quantum: nat, g: Chart, i: nat, u: nat, v: nat, t: nat)
    requires Startable(jobs, quantum) && Drawn(jobs, quantum, g) && i < |jobs|
    requires AwayBetween(g, i, u, v) && u + 1 < t <= v
    requires Left(jobs, g, v)[i] > 0
    ensures var st := StateAt(jobs, quantum, t); WellSized(|jobs|, st) && i in st.queue && st.since[i] == u + 1
    decreases t
  {
    hide *;
    AwayFacts(g, i, u, v, t - 1);
    RunFacts(jobs, quantum, g, t - 1);
    var st := StateAt(jobs, quantum, t - 1);
    if t == u + 2 {
      RunFacts(jobs, quantum, g, u);
      DrawnLeft(jobs, quantum, g, u + 1);
      LeftWhileAway(jobs, g, i, u, v, u + 1);
      StepLeaves(jobs, quantum, st, t - 1, i);
    } else {
      QueuedSince(jobs, quantum, g, i, u, v, t - 1);
      StepWaiting(jobs, quantum, st, t - 1, i);
    }
  }

  lemma AwayFacts(g: Chart, i: int, u: nat, v: nat, w: nat)
    requires AwayBetween(g, i, u, v) && u < w < v
    ensures v < |g| && g[u] == i && g[w] != i
  {
  }

  /** Iteration `t` of a run, and what the chart says of it. */
  lemma RunFacts(jobs: seq<Job>, quantum: nat, g: Chart, t: nat)
    requires Startable(jobs, quantum) && Drawn(jobs, quantum, g) && t < |g|
    ensures var st, r := StateAt(jobs, quantum, t), StateAt(jobs, quantum, t + 1);
            && WellSized(|jobs|, st) && WellSized(|jobs|, r) && Inv(jobs, quantum, st, t, 0)
            && |st.left| == |st.since| == |jobs| == |r.left| == |r.since|
            && r == Step(jobs, quantum, st, t) && g[t] == r.running
  {
    StateInv(jobs, quantum, t);
    hide Inv, Step;
  }

  /** Between two turns of a process lie at most as many ticks as all others' slices take. */
  lemma WaitBetweenTurns(jobs: seq<Job>, quantum: nat, g: Chart, i: nat, u: nat, v: nat)
    requires Startable(jobs, quantum) && Drawn(jobs, quantum, g) && i < |jobs|
    requires AwayBetween(g, i, u, v) && g[v] == i
    ensures v - u - 1 <= LongestWait(jobs, quantum)
  {
    if v == u + 1 {
      LongestWaitNonNegative(jobs, quantum);
    } else {
      DrawnTick(jobs, quantum, g, v);
      assert Left(jobs, g, v)[i] > 0;
      assert g[v] == StateAt(jobs, quantum, v + 1).running;
      QueuedSince(jobs, quantum, g, i, u, v, v);
      StateInv(jobs, quantum, v);
      hide Inv, Step, LongestWait, Left;
      StepWaiting(jobs, quantum, StateAt(jobs, quantum, v), v, i);
    }
  }

  // ---------- a slice longer than every burst ----------

  function LongestBurst(jobs: seq<Job>): (b: nat)
    ensures forall i :: 0 <= i < |jobs| ==> jobs[i].burst <= b
  {
    if jobs == [] then 0 else
      var n := |jobs| - 1;
      var b := LongestBurst(jobs[..n]);
      assert forall i :: 0 <= i < n ==> jobs[..n][i] == jobs[i];
      if b < jobs[n].burst then jobs[n].burst else b
  }

  /**
   The slice a time slice amounts to. One that starts at zero or below is counted down without ever being zero
   when it is tested, so it never runs out.
   */
  function Effective(jobs: seq<Job>, timeSlice: int): (quantum: nat)
    ensures quantum >= 1 && timeSlice <= quantum
    ensures timeSlice <= 0 ==> NeverOut(jobs, quantum)
  {
    if timeSlice >= 1 then timeSlice else LongestBurst(jobs) + 1
  }

  ghost predicate NeverOut(jobs: seq<Job>, quantum: nat)
  {
    forall i :: 0 <= i < |jobs| ==> jobs[i].burst < quantum
  }

  /** The slice has been used for no more ticks than its process has run at all. */
  ghost predicate SliceUse(jobs: seq<Job>, quantum: nat, st: State)
  {
    |st.left| == |jobs| && -1 <= st.running < |jobs| &&
    (st.running != -1 ==>
       quantum - (jobs[st.running].burst - st.left[st.running]) <= st.slice < quantum && st.left[st.running] >= 0)
  }

  lemma StepSliceUse(jobs: seq<Job>, quantum: nat, st: State, t: int)
    requires WellSized(|jobs|, st) && Inv(jobs, quantum, st, t, 0) && SliceUse(jobs, quantum, st)
    ensures SliceUse(jobs, quantum, Step(jobs, quantum, st, t))
  {
    StepKeeps(jobs, quantum, st, t);
    StepRuns(jobs, quantum, st, t);
    ArriveSized(jobs, st, t, |jobs|);
    ArriveSlice(jobs, st, t, |jobs|);
    hide Arrive, Waits, Accumulated, Futures, AllQuanta;
  }

  lemma {:induction false} ArriveSlice(jobs: seq<Job>, st: State, t: int, m: nat)
    requires |st.since| == |jobs| && m <= |jobs|
    ensures Arrive(jobs, st, t, m).slice == st.slice
  {
    if m > 0 {
      ArriveSlice(jobs, st, t, m - 1);
    }
  }

  lemma {:induction false} RunSliceUse(jobs: seq<Job>, quantum: nat, t: nat)
    requires Startable(jobs, quantum)
    ensures SliceUse(jobs, quantum, StateAt(jobs, quantum, t))
  {
    hide Inv, WellSized, SliceUse, Step;
    if t == 0 {
      InitialSliceUse(jobs, quantum);
    } else {
      RunSliceUse(jobs, quantum, t - 1);
      StateInv(jobs, quantum, t - 1);
      StepSliceUse(jobs, quantum, StateAt(jobs, quantum, t - 1), t - 1);
    }
  }

  lemma InitialSliceUse(jobs: seq<Job>, quantum: nat)
    ensures SliceUse(jobs, quantum, Initial(jobs))
  {
  }

  // ---------- first come, first served ----------

  /** Earlier arrival, or the same and earlier in the list. */
  ghost predicate Precedes(jobs: seq<Job>, i: nat, j: nat)
    requires i < |jobs| && j < |jobs|
  {
    jobs[i].arrival < jobs[j].arrival || (jobs[i].arrival == jobs[j].arrival && i < j)
  }

  /** `i` is the first of the live jobs in order of arrival, or -1 when none is live. */
  ghost predicate FirstCome(jobs: seq<Job>, live: seq<int>, i: int)
    requires |live| == |jobs|
  {
    if i == -1 then AllDone(live)
    else 0 <= i < |jobs| && live[i] > 0 && forall j :: 0 <= j < |jobs| && j != i && live[j] > 0 ==> Precedes(jobs, i, j)
  }

  /** The running process and the queue are in order of arrival. */
  ghost predicate Ordered(jobs: seq<Job>, st: State)
    requires Shape(jobs, st)
  {
    && (forall j, k :: 0 <= j < k < |st.queue| ==> Precedes(jobs, st.queue[j], st.queue[k]))
    && (st.running != -1 ==> forall k :: 0 <= k < |st.queue| ==> Precedes(jobs, st.running, st.queue[k]))
  }

  lemma ShapeOf(jobs: seq<Job>, quantum: nat, st: State, t: int, m: nat)
    requires Inv(jobs, quantum, st, t, m)
    ensures Shape(jobs, st) && Members(jobs, quantum, st, t, m)
  {
  }

  /** The newcomers of a tick come after everyone who is here. */
  lemma JoinOrdered(jobs: seq<Job>, quantum: nat, st: State, t: int, m: nat)
    requires m < |jobs| && Shape(jobs, st) && Members(jobs, quantum, st, t, m) && Ordered(jobs, st)
    requires jobs[m].arrival == t && Shape(jobs, Join(st, m, t))
    ensures Ordered(jobs, Join(st, m, t))
  {
    forall k | 0 <= k < |st.queue|
      ensures Precedes(jobs, st.queue[k], m)
    {
      assert st.queue[k] in st.queue;
      assert Here(jobs, t, m, st.queue[k]);
    }
    hide Members, Shape;
  }

  lemma {:induction false} ArriveOrdered(jobs: seq<Job>, quantum: nat, st: State, t: int, m: nat)
    requires Inv(jobs, quantum, st, t, 0) && m <= |jobs| && Shape(jobs, st) && Ordered(jobs, st)
    ensures Shape(jobs, Arrive(jobs, st, t, m)) && Ordered(jobs, Arrive(jobs, st, t, m))
  {
    hide *;
    SinceSize(jobs, quantum, st, t, 0);
    ArriveUnfold(jobs, st, t, m);
    if m > 0 {
      ArriveOrdered(jobs, quantum, st, t, m - 1);
      ArriveKeeps(jobs, quantum, st, t, m - 1);
      ArriveKeeps(jobs, quantum, st, t, m);
      ShapeOf(jobs, quantum, Arrive(jobs, st, t, m), t, m);
      ShapeOf(jobs, quantum, Arrive(jobs, st, t, m - 1), t, m - 1);
      if jobs[m - 1].arrival == t {
        JoinOrdered(jobs, quantum, Arrive(jobs, st, t, m - 1), t, m - 1);
      }
    }
  }

  /** Nobody's slice is used up, so only finished processes leave the CPU. */
  lemma SettleOrdered(jobs: seq<Job>, quantum: nat, a: State, t: int)
    requires Shape(jobs, a) && Ordered(jobs, a) && NeverOut(jobs, quantum) && SliceUse(jobs, quantum, a)
    ensures Shape(jobs, Settle(a, t)) && Ordered(jobs, Settle(a, t))
  {
    assert Settle(a, t) == a || Settle(a, t) == a.(running := -1);
  }

  /** With a slice that never runs out an iteration keeps the order and runs the first live process. */
  lemma StepOrdered(jobs: seq<Job>, quantum: nat, st: State, t: int)
    requires WellSized(|jobs|, st) && Inv(jobs, quantum, st, t, 0) && Shape(jobs, st) && Ordered(jobs, st)
    requires NeverOut(jobs, quantum) && SliceUse(jobs, quantum, st)
    ensures var r := Step(jobs, quantum, st, t);
            Shape(jobs, r) && Ordered(jobs, r) && FirstCome(jobs, Live(jobs, st.left, t), r.running)
  {
    hide Inv, Arrive, Ordered, FirstCome, NeverOut, Members;
    ArriveSized(jobs, st, t, |jobs|);
    ArriveSlice(jobs, st, t, |jobs|);
    var a := Arrive(jobs, st, t, |jobs|);
    ArriveKeeps(jobs, quantum, st, t, |jobs|);
    ArriveOrdered(jobs, quantum, st, t, |jobs|);
    SettleKeeps(jobs, quantum, a, t, |jobs|);
    SettleOrdered(jobs, quantum, a, t);
    hide SliceUse;
    var b := Settle(a, t);
    DispatchKeeps(jobs, quantum, b, t, |jobs|);
    var c := Dispatch(b, quantum);
    ShapeOf(jobs, quantum, c, t, |jobs|);
    DispatchOrdered(jobs, quantum, b);
    FirstOfOrdered(jobs, quantum, c, t);
    TickOrdered(jobs, c);
  }

  lemma TickOrdered(jobs: seq<Job>, c: State)
    requires Shape(jobs, c) && Ordered(jobs, c)
    ensures Shape(jobs, Tick(c)) && Ordered(jobs, Tick(c))
  {
  }

  lemma DispatchOrdered(jobs: seq<Job>, quantum: nat, b: State)
    requires Shape(jobs, b) && Ordered(jobs, b) && Shape(jobs, Dispatch(b, quantum))
    ensures Ordered(jobs, Dispatch(b, quantum))
  {
  }

  lemma FirstOfOrdered(jobs: seq<Job>, quantum: nat, c: State, t: int)
    requires Shape(jobs, c) && Ordered(jobs, c) && Members(jobs, quantum, c, t, |jobs|)
    requires c.running != -1 ==> c.left[c.running] > 0
    requires c.running == -1 ==> c.queue == []
    ensures FirstCome(jobs, Live(jobs, c.left, t), c.running)
  {
    var live := Live(jobs, c.left, t);
    forall j | 0 <= j < |jobs| && live[j] > 0
      ensures j == c.running || (c.running != -1 && Precedes(jobs, c.running, j))
    {
      assert Here(jobs, t, |jobs|, j);
      if j != c.running {
        assert j in c.queue;
      }
    }
  }

  lemma {:induction false} RunOrdered(jobs: seq<Job>, quantum: nat, t: nat)
    requires Startable(jobs, quantum) && NeverOut(jobs, quantum)
    ensures Shape(jobs, StateAt(jobs, quantum, t)) && Ordered(jobs, StateAt(jobs, quantum, t))
  {
    hide Inv, WellSized, SliceUse, Step, Ordered, Shape, NeverOut, FirstCome;
    if t == 0 {
      InitialOrdered(jobs);
    } else {
      RunOrdered(jobs, quantum, t - 1);
      RunSliceUse(jobs, quantum, t - 1);
      StateInv(jobs, quantum, t - 1);
      StepOrdered(jobs, quantum, StateAt(jobs, quantum, t - 1), t - 1);
    }
  }

  lemma InitialOrdered(jobs: seq<Job>)
    ensures Shape(jobs, Initial(jobs)) && Ordered(jobs, Initial(jobs))
  {
  }

  /** With a slice that never runs out, every tick goes to the first live process in order of arrival. */
  lemma NeverOutIsFirstCome(jobs: seq<Job>, quantum: nat, g: Chart, t: nat)
    requires Startable(jobs, quantum) && NeverOut(jobs, quantum) && Drawn(jobs, quantum, g) && t < |g|
    ensures FirstCome(jobs, Backlog(jobs, g, t), g[t])
  {
    assert g[t] == StateAt(jobs, quantum, t + 1).running;
    hide Inv, SliceUse, Step, Ordered, Shape, NeverOut, FirstCome;
    RunOrdered(jobs, quantum, t);
    RunSliceUse(jobs, quantum, t);
    StateInv(jobs, quantum, t);
    DrawnLeft(jobs, quantum, g, t);
    StepOrdered(jobs, quantum, StateAt(jobs, quantum, t), t);
  }
}
