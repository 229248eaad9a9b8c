/**
 Round robin as a state machine: what one tick does, and what every tick keeps. From the invariant follow
 the bounds on waiting and the exact number of times the queue is written.
 */
module RoundRobin {
  import opened Schedule
  import opened Policies
  import opened Counting
  import opened Products

  /**
   `queue` are the processes waiting for the CPU, `slice` the ticks left to the running one, `left` the time
   every process still needs, `since` when each last joined the queue, `head` how often one was taken from it.
   */
  datatype State = State(queue: seq<nat>, running: int, slice: int, left: seq<int>, since: seq<int>, head: nat)
  {
    /** How often a process was put into the queue. */
    function Tail(): (n: nat)
    {
      head + |queue|
    }
  }

  // ---------- one tick ----------

  function Join(st: State, i: nat, t: int): (r: State)
    requires i < |st.since|
    ensures |r.since| == |st.since| && r.left == st.left && r.running == st.running
  {
    st.(queue := st.queue + [i], since := st.since[i := t])
  }

  /** The processes below `m` that arrive at time `t` join the queue in index order. */
  function Arrive(jobs: seq<Job>, st: State, t: int, m: nat): (r: State)
    requires |st.since| == |jobs| && m <= |jobs|
    ensures |r.since| == |jobs| && r.left == st.left && r.running == st.running
  {
    if m == 0 then st else
    var before := Arrive(jobs, st, t, m - 1);
    if jobs[m - 1].arrival == t then Join(before, m - 1, t) else before
  }

  /** A finished process leaves the CPU; one whose slice is used up rejoins the queue. */
  function Settle(st: State, t: int): (r: State)
    requires -1 <= st.running < |st.left| == |st.since|
    ensures |r.left| == |r.since| == |st.left| && -1 <= r.running < |st.left|
  {
    if st.running != -1 && st.left[st.running] == 0 then st.(running := -1)
    else if st.running != -1 && st.slice == 0 then Join(st, st.running, t).(running := -1)
    else st
  }

  /** A free CPU takes the head of the queue, with a full slice. */
  function Dispatch(st: State, quantum: nat): (r: State)
    requires forall k :: 0 <= k < |st.queue| ==> st.queue[k] < |st.left|
    ensures r.left == st.left && r.since == st.since
    ensures -1 <= st.running < |st.left| ==> -1 <= r.running < |st.left|
  {
    if st.running != -1 then st
    else if st.queue == [] then st.(slice := quantum)
    else State(st.queue[1..], st.queue[0], quantum, st.left, st.since, st.head + 1)
  }

  function Tick(st: State): (r: State)
    ensures |r.left| == |st.left| && r.since == st.since && r.running == st.running && r.queue == st.queue
  {
    if st.running == -1 then st else st.(left := Run(st.left, st.running), slice := st.slice - 1)
  }

  ghost predicate Shape(jobs: seq<Job>, st: State)
  {
    && |st.left| == |st.since| == |jobs| && -1 <= st.running < |jobs|
    && (forall k :: 0 <= k < |st.queue| ==> st.queue[k] < |jobs|)
    && (forall j, k :: 0 <= j < k < |st.queue| ==> st.queue[j] != st.queue[k])
    && (st.running != -1 ==> st.running !in st.queue)
  }

  /** Enough to make sense of an iteration. */
  ghost predicate WellSized(n: nat, st: State)
  {
    && |st.left| == |st.since| == n && -1 <= st.running < n
    && forall k :: 0 <= k < |st.queue| ==> st.queue[k] < n
  }

  lemma {:induction false} ArriveSized(jobs: seq<Job>, st: State, t: int, m: nat)
    requires WellSized(|jobs|, st) && m <= |jobs|
    ensures WellSized(|jobs|, Arrive(jobs, st, t, m))
  {
    if m > 0 {
      ArriveSized(jobs, st, t, m - 1);
    }
  }

  /** A whole iteration of the loop at time `t`. */
  ghost function Step(jobs: seq<Job>, quantum: nat, st: State, t: int): (r: State)
    requires WellSized(|jobs|, st)
    ensures WellSized(|jobs|, r)
  {
    ArriveSized(jobs, st, t, |jobs|);
    Tick(Dispatch(Settle(Arrive(jobs, st, t, |jobs|), t), quantum))
  }

  // ---------- the invariant ----------

  /** How many slices `work` takes: its quotient by the quantum, rounded up. */
  function Quanta(work: int, quantum: nat): (n: nat)
    requires quantum >= 1
    ensures work <= 0 <==> n == 0
    decreases if work <= 0 then 0 else work
  {
    if work <= 0 then 0 else 1 + Quanta(work - quantum, quantum)
  }

  /** The number of slices is indeed the rounded-up quotient. */
  lemma {:induction false} QuantaIsCeiling(work: int, quantum: nat)
    requires quantum >= 1 && work >= 0
    ensures Times(Quanta(work, quantum) - 1, quantum) < work || work == 0
    ensures work <= Times(Quanta(work, quantum), quantum)
    decreases work
  {
    hide Times;
    Distribute(0, 0, quantum);
    if work > quantum {
      QuantaIsCeiling(work - quantum, quantum);
      Distribute(Quanta(work - quantum, quantum), 1, quantum);
      Distribute(Quanta(work - quantum, quantum) - 1, 1, quantum);
    } else if work > 0 {
      assert Quanta(work - quantum, quantum) == 0;
    }
  }

  ghost predicate Here(jobs: seq<Job>, t: int, m: nat, i: nat)
    requires i < |jobs|
  {
    jobs[i].arrival < t || (jobs[i].arrival == t && i < m)
  }

  /** Exactly the unfinished processes that are here and do not run are in the queue. */
  ghost predicate Members(jobs: seq<Job>, quantum: nat, st: State, t: int, m: nat)
    requires Shape(jobs, st)
  {
    && (forall i :: 0 <= i < |jobs| ==> (i in st.queue <==> Here(jobs, t, m, i) && st.left[i] > 0 && i != st.running))
    && (forall i :: 0 <= i < |jobs| ==> 0 <= st.left[i] <= jobs[i].burst)
    && (forall i :: 0 <= i < |jobs| && !Here(jobs, t, m, i) ==> st.left[i] == jobs[i].burst)
    && (st.running != -1 ==> Here(jobs, t, m, st.running) && 0 <= st.slice <= quantum)
  }

  /** The longest a process waits for the CPU: one slice for every other process. */
  function LongestWait(jobs: seq<Job>, quantum: nat): (w: int)
  {
    Times(|jobs| - 1, quantum)
  }

  function Busy(st: State): (n: int)
  {
    if st.running == -1 then 0 else st.slice
  }

  /** Time waited so far plus the slices still ahead stays within the longest wait. */
  ghost predicate Waits(jobs: seq<Job>, quantum: nat, st: State, t: int)
    requires Shape(jobs, st)
  {
    forall k :: 0 <= k < |st.queue| ==> WaitsAt(jobs, quantum, st, t, k)
  }

  ghost predicate WaitsAt(jobs: seq<Job>, quantum: nat, st: State, t: int, k: nat)
    requires Shape(jobs, st) && k < |st.queue|
  {
    t - st.since[st.queue[k]] + Busy(st) + Times(k, quantum) <= LongestWait(jobs, quantum)
  }

  /** Slices process `i` has still to be given. */
  function Future(quantum: nat, st: State, i: nat): (n: nat)
    requires quantum >= 1 && i < |st.left|
  {
    Quanta(st.left[i] - (if i == st.running then st.slice else 0), quantum)
  }

  /** Time not spent running, up to now or up to joining the queue, is at most one longest wait per slice given. */
  ghost predicate Accumulated(jobs: seq<Job>, quantum: nat, st: State, t: int)
    requires Shape(jobs, st) && quantum >= 1
  {
    forall i :: 0 <= i < |jobs| && (i in st.queue || i == st.running) ==> AccumulatedAt(jobs, quantum, st, t, i)
  }

  ghost predicate AccumulatedAt(jobs: seq<Job>, quantum: nat, st: State, t: int, i: nat)
    requires Shape(jobs, st) && i < |jobs| && quantum >= 1
  {
    var until := if i == st.running then t else st.since[i];
    until - jobs[i].arrival - (jobs[i].burst - st.left[i])
    <= Times(Quanta(jobs[i].burst, quantum) - Future(quantum, st, i), LongestWait(jobs, quantum))
  }

  ghost function Futures(quantum: nat, st: State): (r: seq<int>)
    requires quantum >= 1
    ensures |r| == |st.left| && forall i :: 0 <= i < |st.left| ==> r[i] == Future(quantum, st, i)
  {
    seq(|st.left|, i requires 0 <= i < |st.left| => Future(quantum, st, i))
  }

  /** The slices of all processes together. */
  ghost function AllQuanta(jobs: seq<Job>, quantum: nat): (n: int)
    requires quantum >= 1
  {
    Sum(seq(|jobs|, i requires 0 <= i < |jobs| => Quanta(jobs[i].burst, quantum)))
  }

  ghost predicate Inv(jobs: seq<Job>, quantum: nat, st: State, t: int, m: nat)
  {
    && quantum >= 1 && Sound(jobs)
    && Shape(jobs, st) && Members(jobs, quantum, st, t, m)
    && Waits(jobs, quantum, st, t)
    && Accumulated(jobs, quantum, st, t)
    && st.head + Sum(Futures(quantum, st)) == AllQuanta(jobs, quantum)
  }

  // ---------- joining ----------

  lemma JoinShape(jobs: seq<Job>, st: State, i: nat, t: int)
    requires Shape(jobs, st) && i < |jobs| && i !in st.queue && i != st.running
    ensures Shape(jobs, Join(st, i, t))
    ensures |st.queue| + (if st.running == -1 then 0 else 1) + 1 <= |jobs|
  {
    DistinctBound(st.queue + (if st.running == -1 then [] else [st.running]) + [i], |jobs|);
  }

  lemma JoinWaits(jobs: seq<Job>, quantum: nat, st: State, i: nat, t: int)
    requires Shape(jobs, st) && i < |jobs| && i !in st.queue && i != st.running
    requires Shape(jobs, Join(st, i, t)) && Waits(jobs, quantum, st, t)
    requires |st.queue| + (if st.running == -1 then 0 else 1) + 1 <= |jobs|
    requires st.running != -1 ==> st.slice <= quantum
    ensures Waits(jobs, quantum, Join(st, i, t), t)
  {
    hide Times;
    var r := Join(st, i, t);
    var n := |st.queue|;
    forall k | 0 <= k < |r.queue|
      ensures WaitsAt(jobs, quantum, r, t, k)
    {
      if k < n {
        assert WaitsAt(jobs, quantum, st, t, k);
      } else {
        var others := |jobs| - 1 - n;
        Distribute(n, others, quantum);
        if st.running != -1 {
          Distribute(1, others - 1, quantum);
        }
      }
    }
  }

  lemma JoinRest(jobs: seq<Job>, quantum: nat, st: State, i: nat, t: int)
    requires quantum >= 1 && Shape(jobs, st) && i < |jobs| && i != st.running && Shape(jobs, Join(st, i, t))
    requires Accumulated(jobs, quantum, st, t)
    requires t - jobs[i].arrival - (jobs[i].burst - st.left[i])
             <= Times(Quanta(jobs[i].burst, quantum) - Future(quantum, st, i), LongestWait(jobs, quantum))
    ensures Accumulated(jobs, quantum, Join(st, i, t), t)
    ensures Futures(quantum, Join(st, i, t)) == Futures(quantum, st)
  {
    hide LongestWait;
    hide Times;
    var r := Join(st, i, t);
    forall j | 0 <= j < |jobs| && (j in r.queue || j == r.running)
      ensures AccumulatedAt(jobs, quantum, r, t, j)
    {
      if j != i {
        assert AccumulatedAt(jobs, quantum, st, t, j);
      }
    }
  }

  // ---------- arrivals ----------

  lemma ArriveOne(jobs: seq<Job>, quantum: nat, st: State, t: int, m: nat)
    requires Inv(jobs, quantum, st, t, m) && m < |jobs|
    ensures Inv(jobs, quantum, if jobs[m].arrival == t then Join(st, m, t) else st, t, m + 1)
  {
    hide Times;
    if jobs[m].arrival == t {
      JoinShape(jobs, st, m, t);
      hide Shape;
      JoinWaits(jobs, quantum, st, m, t);
      Distribute(0, 0, LongestWait(jobs, quantum));
      JoinRest(jobs, quantum, st, m, t);
      hide Waits;
      hide Accumulated;
      assert Members(jobs, quantum, Join(st, m, t), t, m + 1);
    } else {
      assert forall i :: 0 <= i < |jobs| ==> Here(jobs, t, m, i) == Here(jobs, t, m + 1, i);
    }
  }

  lemma SinceSize(jobs: seq<Job>, quantum: nat, st: State, t: int, m: nat)
    requires Inv(jobs, quantum, st, t, m)
    ensures |st.since| == |jobs|
  {
  }

  lemma ArriveUnfold(jobs: seq<Job>, st: State, t: int, m: nat)
    requires |st.since| == |jobs| && m <= |jobs|
    ensures m == 0 ==> Arrive(jobs, st, t, m) == st
    ensures m > 0 ==>
              Arrive(jobs, st, t, m)
              == if jobs[m - 1].arrival == t then Join(Arrive(jobs, st, t, m - 1), m - 1, t)
                 else Arrive(jobs, st, t, m - 1)
  {
  }

  lemma {:induction false} ArriveKeeps(jobs: seq<Job>, quantum: nat, st: State, t: int, m: nat)
    requires Inv(jobs, quantum, st, t, 0) && m <= |jobs|
    ensures Inv(jobs, quantum, Arrive(jobs, st, t, m), t, m)
  {
    hide *;
    SinceSize(jobs, quantum, st, t, 0);
    ArriveUnfold(jobs, st, t, m);
    if m > 0 {
      ArriveKeeps(jobs, quantum, st, t, m - 1);
      ArriveOne(jobs, quantum, Arrive(jobs, st, t, m - 1), t, m - 1);
    }
  }

  // ---------- leaving the CPU ----------

  lemma SettleDone(jobs: seq<Job>, quantum: nat, st: State, t: int, m: nat)
    requires Inv(jobs, quantum, st, t, m) && st.running != -1 && st.left[st.running] == 0
    ensures Inv(jobs, quantum, st.(running := -1), t, m)
  {
    var r := st.(running := -1);
    assert Futures(quantum, r) == Futures(quantum, st);
    forall k | 0 <= k < |r.queue|
      ensures WaitsAt(jobs, quantum, r, t, k)
    {
      assert WaitsAt(jobs, quantum, st, t, k);
    }
    hide LongestWait;
    hide Times;
    forall j | 0 <= j < |jobs| && j in r.queue
      ensures AccumulatedAt(jobs, quantum, r, t, j)
    {
      assert AccumulatedAt(jobs, quantum, st, t, j);
    }
  }

  lemma SettleExpired(jobs: seq<Job>, quantum: nat, st: State, t: int, m: nat)
    requires Inv(jobs, quantum, st, t, m) && st.running != -1 && st.left[st.running] > 0 && st.slice == 0
    ensures Inv(jobs, quantum, Join(st, st.running, t).(running := -1), t, m)
  {
    var i := st.running;
    var free := st.(running := -1);
    assert AccumulatedAt(jobs, quantum, st, t, i);
    assert Futures(quantum, free) == Futures(quantum, st);
    assert Shape(jobs, free);
    assert Waits(jobs, quantum, free, t) by {
      forall k | 0 <= k < |free.queue|
        ensures WaitsAt(jobs, quantum, free, t, k)
      {
        assert WaitsAt(jobs, quantum, st, t, k);
      }
    }
    hide LongestWait;
    hide Times;
    assert Accumulated(jobs, quantum, free, t) by {
      forall j | 0 <= j < |jobs| && j in free.queue
        ensures AccumulatedAt(jobs, quantum, free, t, j)
      {
        assert AccumulatedAt(jobs, quantum, st, t, j);
      }
    }
    JoinShape(jobs, free, i, t);
    JoinWaits(jobs, quantum, free, i, t);
    JoinRest(jobs, quantum, free, i, t);
    hide Waits;
    hide Accumulated;
    assert Members(jobs, quantum, Join(free, i, t), t, m);
    assert Join(free, i, t) == Join(st, i, t).(running := -1);
  }

  lemma SettleKeeps(jobs: seq<Job>, quantum: nat, st: State, t: int, m: nat)
    requires Inv(jobs, quantum, st, t, m)
    ensures Inv(jobs, quantum, Settle(st, t), t, m)
    ensures var r := Settle(st, t); r.running != -1 ==> r.left[r.running] > 0 && r.slice > 0
  {
    if st.running != -1 && st.left[st.running] == 0 {
      SettleDone(jobs, quantum, st, t, m);
    } else if st.running != -1 && st.slice == 0 {
      SettleExpired(jobs, quantum, st, t, m);
    }
  }

  // ---------- taking the CPU ----------

  /** A process taken from the head of the queue has waited no longer than the longest wait. */
  lemma HeadWaited(jobs: seq<Job>, quantum: nat, st: State, t: int, m: nat)
    requires Inv(jobs, quantum, st, t, m) && st.running == -1 && st.queue != []
    ensures t - st.since[st.queue[0]] <= LongestWait(jobs, quantum)
  {
    assert WaitsAt(jobs, quantum, st, t, 0);
    Distribute(0, 0, quantum);
  }

  lemma DispatchWaits(jobs: seq<Job>, quantum: nat, st: State, t: int)
    requires Shape(jobs, st) && Waits(jobs, quantum, st, t) && st.running == -1 && st.queue != []
    requires Shape(jobs, Dispatch(st, quantum))
    ensures Waits(jobs, quantum, Dispatch(st, quantum), t)
  {
    var r := Dispatch(st, quantum);
    hide LongestWait;
    hide Times;
    forall k | 0 <= k < |r.queue|
      ensures WaitsAt(jobs, quantum, r, t, k)
    {
      assert WaitsAt(jobs, quantum, st, t, k + 1);
      Distribute(k, 1, quantum);
    }
  }

  /** Being dispatched uses up one of the slices a process needs. */
  lemma DispatchFuture(jobs: seq<Job>, quantum: nat, st: State)
    requires quantum >= 1 && Shape(jobs, st) && st.running == -1 && st.queue != [] && st.left[st.queue[0]] > 0
    ensures var i, r := st.queue[0], Dispatch(st, quantum);
            && Future(quantum, r, i) == Future(quantum, st, i) - 1
            && Sum(Futures(quantum, r)) == Sum(Futures(quantum, st)) - 1
            && forall j :: 0 <= j < |jobs| && j != i ==> Future(quantum, r, j) == Future(quantum, st, j)
  {
    var i, r := st.queue[0], Dispatch(st, quantum);
    assert Futures(quantum, r) == Futures(quantum, st)[i := Future(quantum, st, i) - 1];
    SumUpdate(Futures(quantum, st), i, Future(quantum, st, i) - 1);
  }

  lemma DispatchAccumulated(jobs: seq<Job>, quantum: nat, st: State, t: int, m: nat)
    requires Inv(jobs, quantum, st, t, m) && st.running == -1 && st.queue != []
    requires Shape(jobs, Dispatch(st, quantum)) && st.left[st.queue[0]] > 0
    ensures Accumulated(jobs, quantum, Dispatch(st, quantum), t)
  {
    hide Times;
    hide Waits;
    hide LongestWait;
    hide Future;
    var r := Dispatch(st, quantum);
    var i := st.queue[0];
    HeadWaited(jobs, quantum, st, t, m);
    DispatchFuture(jobs, quantum, st);
    hide Members;
    Distribute(Quanta(jobs[i].burst, quantum) - Future(quantum, st, i), 1, LongestWait(jobs, quantum));
    forall j | 0 <= j < |jobs| && (j in r.queue || j == r.running)
      ensures AccumulatedAt(jobs, quantum, r, t, j)
    {
      assert j in st.queue;
      assert AccumulatedAt(jobs, quantum, st, t, j);
    }
  }

  lemma DispatchMembers(jobs: seq<Job>, quantum: nat, st: State, t: int, m: nat)
    requires quantum >= 1 && Shape(jobs, st) && Members(jobs, quantum, st, t, m) && st.running == -1 && st.queue != []
    ensures Shape(jobs, Dispatch(st, quantum)) && Members(jobs, quantum, Dispatch(st, quantum), t, m)
    ensures st.left[st.queue[0]] > 0
  {
    var r := Dispatch(st, quantum);
    assert st.queue == [st.queue[0]] + r.queue;
    assert st.queue[0] in st.queue;
  }

  lemma DispatchKeeps(jobs: seq<Job>, quantum: nat, st: State, t: int, m: nat)
    requires Inv(jobs, quantum, st, t, m)
    requires st.running != -1 ==> st.left[st.running] > 0 && st.slice > 0
    ensures var r := Dispatch(st, quantum);
            && Inv(jobs, quantum, r, t, m)
            && (r.running != -1 ==> r.left[r.running] > 0 && r.slice > 0)
            && (r.running == -1 ==> r.queue == [])
  {
    if st.running == -1 {
      if st.queue == [] {
        assert Futures(quantum, st.(slice := quantum)) == Futures(quantum, st);
      } else {
        DispatchMembers(jobs, quantum, st, t, m);
        DispatchFuture(jobs, quantum, st);
        hide Shape;
        DispatchWaits(jobs, quantum, st, t);
        DispatchAccumulated(jobs, quantum, st, t, m);
      }
    }
  }

  // ---------- running ----------

  lemma TickKeeps(jobs: seq<Job>, quantum: nat, st: State, t: int)
    requires Inv(jobs, quantum, st, t, |jobs|)
    requires st.running != -1 ==> st.left[st.running] > 0 && st.slice > 0
    requires st.running == -1 ==> st.queue == []
    ensures Inv(jobs, quantum, Tick(st), t + 1, 0)
  {
    var r := Tick(st);
    hide Times;
    var t' := t + 1;
    assert Futures(quantum, r) == Futures(quantum, st);
    forall k | 0 <= k < |r.queue|
      ensures WaitsAt(jobs, quantum, r, t', k)
    {
      assert WaitsAt(jobs, quantum, st, t, k);
    }
    hide LongestWait;
    hide Times;
    hide Quanta;
    forall j | 0 <= j < |jobs| && (j in r.queue || j == r.running)
      ensures AccumulatedAt(jobs, quantum, r, t', j)
    {
      assert AccumulatedAt(jobs, quantum, st, t, j);
    }
  }

  /** One whole iteration keeps the invariant. */
  lemma StepKeeps(jobs: seq<Job>, quantum: nat, st: State, t: int)
    requires WellSized(|jobs|, st) && Inv(jobs, quantum, st, t, 0)
    ensures Inv(jobs, quantum, Step(jobs, quantum, st, t), t + 1, 0)
  {
    hide Members;
    hide Waits;
    hide Accumulated;
    var a := Arrive(jobs, st, t, |jobs|);
    ArriveKeeps(jobs, quantum, st, t, |jobs|);
    SettleKeeps(jobs, quantum, a, t, |jobs|);
    DispatchKeeps(jobs, quantum, Settle(a, t), t, |jobs|);
    TickKeeps(jobs, quantum, Dispatch(Settle(a, t), quantum), t);
  }

  // ---------- whole runs ----------

  ghost function Initial(jobs: seq<Job>): (st: State)
    ensures WellSized(|jobs|, st)
  {
    State([], -1, 0, Bursts(jobs), seq(|jobs|, i => 0), 0)
  }

  /** Every burst is at least one tick, and no arrival lies before the first; it would never be noticed. */
  ghost predicate Startable(jobs: seq<Job>, quantum: nat)
  {
    Sound(jobs) && quantum >= 1 && forall i :: 0 <= i < |jobs| ==> jobs[i].arrival >= 0
  }

  lemma InitialInv(jobs: seq<Job>, quantum: nat)
    requires Startable(jobs, quantum)
    ensures Inv(jobs, quantum, Initial(jobs), 0, 0)
  {
    assert Futures(quantum, Initial(jobs)) == seq(|jobs|, i requires 0 <= i < |jobs| => Quanta(jobs[i].burst, quantum));
  }

  /** The state after `t` iterations. */
  ghost function StateAt(jobs: seq<Job>, quantum: nat, t: nat): (st: State)
    ensures WellSized(|jobs|, st)
  {
    if t == 0 then Initial(jobs) else Step(jobs, quantum, StateAt(jobs, quantum, t - 1), t - 1)
  }

  /** The invariant holds throughout every run. */
  lemma {:induction false} StateInv(jobs: seq<Job>, quantum: nat, t: nat)
    requires Startable(jobs, quantum)
    ensures Inv(jobs, quantum, StateAt(jobs, quantum, t), t, 0)
  {
    hide Inv;
    hide WellSized;
    if t == 0 {
      InitialInv(jobs, quantum);
    } else {
      StateInv(jobs, quantum, t - 1);
      StepKeeps(jobs, quantum, StateAt(jobs, quantum, t - 1), t - 1);
    }
  }

  /** The chart records who ran in each iteration. */
  ghost predicate Drawn(jobs: seq<Job>, quantum: nat, g: Chart)
  {
    forall t :: 0 <= t < |g| ==> g[t] == StateAt(jobs, quantum, t + 1).running
  }

  /** A complete round-robin chart. */
  ghost predicate RoundRobinChart(jobs: seq<Job>, quantum: nat, g: Chart)
  {
    && Drawn(jobs, quantum, g)
    && forall i :: 0 <= i < |jobs| ==> Left(jobs, g, |g|)[i] == 0
  }

  lemma StepRuns(jobs: seq<Job>, quantum: nat, st: State, t: int)
    requires WellSized(|jobs|, st) && Inv(jobs, quantum, st, t, 0)
    ensures var r := Step(jobs, quantum, st, t);
            && r.left == Run(st.left, r.running)
            && (r.running != -1 ==> jobs[r.running].arrival <= t && st.left[r.running] > 0)
            && (r.running == -1 ==> AllDone(Live(jobs, st.left, t)))
  {
    var a := Arrive(jobs, st, t, |jobs|);
    ArriveKeeps(jobs, quantum, st, t, |jobs|);
    SettleKeeps(jobs, quantum, a, t, |jobs|);
    DispatchKeeps(jobs, quantum, Settle(a, t), t, |jobs|);
    var d := Dispatch(Settle(a, t), quantum);
    hide Waits;
    hide Accumulated;
    assert Members(jobs, quantum, d, t, |jobs|);
    assert d.left == st.left;
  }

  /** What the machine and the chart leave to do agree. */
  lemma {:induction false} DrawnLeft(jobs: seq<Job>, quantum: nat, g: Chart, t: nat)
    requires Startable(jobs, quantum) && Drawn(jobs, quantum, g) && t <= |g|
    ensures StateAt(jobs, quantum, t).left == Left(jobs, g, t)
  {
    hide Inv;
    hide WellSized;
    hide Step;
    if t > 0 {
      DrawnLeft(jobs, quantum, g, t - 1);
      StateInv(jobs, quantum, t - 1);
      StepRuns(jobs, quantum, StateAt(jobs, quantum, t - 1), t - 1);
      assert g[t - 1] == StateAt(jobs, quantum, t).running;
    }
  }

  lemma DrawnTick(jobs: seq<Job>, quantum: nat, g: Chart, t: nat)
    requires Startable(jobs, quantum) && Drawn(jobs, quantum, g) && t < |g|
    ensures FeasibleAt(jobs, g, t)
    ensures g[t] == -1 ==> AllDone(Backlog(jobs, g, t))
  {
    hide Inv;
    hide Step;
    DrawnLeft(jobs, quantum, g, t);
    StateInv(jobs, quantum, t);
    StepRuns(jobs, quantum, StateAt(jobs, quantum, t), t);
    assert g[t] == StateAt(jobs, quantum, t + 1).running;
  }

  /** Round robin runs only live processes and never idles while there is one. */
  lemma RoundRobinConserves(jobs: seq<Job>, quantum: nat, g: Chart)
    requires Startable(jobs, quantum) && RoundRobinChart(jobs, quantum, g)
    ensures WorkConserving(jobs, g)
  {
    hide Left;
    hide FeasibleAt;
    forall t | 0 <= t < |g|
      ensures FeasibleAt(jobs, g, t)
      ensures g[t] == -1 ==> AllDone(Backlog(jobs, g, t))
    {
      DrawnTick(jobs, quantum, g, t);
    }
  }

  // ---------- queue arithmetic ----------

  /** A sum of naturals is at least the number of distinct places where it is positive. */
  lemma {:induction false} SumAtLeast(f: seq<int>, q: seq<nat>)
    requires forall i :: 0 <= i < |f| ==> f[i] >= 0
    requires forall k :: 0 <= k < |q| ==> q[k] < |f| && f[q[k]] >= 1
    requires forall j, k :: 0 <= j < k < |q| ==> q[j] != q[k]
    ensures Sum(f) >= |q|
    decreases |q|
  {
    if q == [] {
      NonNegativeSum(f);
    } else {
      var n := |q| - 1;
      var f' := f[q[n] := f[q[n]] - 1];
      SumAtLeast(f', q[..n]);
      SumUpdate(f, q[n], f[q[n]] - 1);
    }
  }

  lemma {:induction false} NonNegativeSum(f: seq<int>)
    requires forall i :: 0 <= i < |f| ==> f[i] >= 0
    ensures Sum(f) >= 0
  {
    if f != [] {
      NonNegativeSum(f[..|f| - 1]);
    }
  }

  /** The queue is never written more often than there are slices to hand out. */
  lemma TailBound(jobs: seq<Job>, quantum: nat, st: State, t: int, m: nat)
    requires Inv(jobs, quantum, st, t, m)
    ensures st.Tail() <= AllQuanta(jobs, quantum)
  {
    forall k | 0 <= k < |st.queue|
      ensures Futures(quantum, st)[st.queue[k]] >= 1
    {
      assert st.queue[k] in st.queue;
    }
    SumAtLeast(Futures(quantum, st), st.queue);
  }

  /** When nothing is left to run, the queue is empty and was used exactly once per slice. */
  lemma TailAtEnd(jobs: seq<Job>, quantum: nat, st: State, t: int, m: nat)
    requires Inv(jobs, quantum, st, t, m) && forall i :: 0 <= i < |jobs| ==> st.left[i] == 0
    ensures st.queue == [] && st.head == st.Tail() == AllQuanta(jobs, quantum)
  {
    TailBound(jobs, quantum, st, t, m);
    assert forall i :: 0 <= i < |jobs| ==> Futures(quantum, st)[i] == 0;
    SumZero(Futures(quantum, st));
  }

  /** Over a whole run: head and tail meet at the total number of slices. */
  lemma QueueArithmetic(jobs: seq<Job>, quantum: nat, g: Chart)
    requires Startable(jobs, quantum) && RoundRobinChart(jobs, quantum, g)
    ensures var st := StateAt(jobs, quantum, |g|);
            st.head == st.Tail() == AllQuanta(jobs, quantum)
    ensures forall t :: 0 <= t <= |g| ==> StateAt(jobs, quantum, t).Tail() <= AllQuanta(jobs, quantum)
  {
    hide Inv;
    hide StateAt;
    DrawnLeft(jobs, quantum, g, |g|);
    StateInv(jobs, quantum, |g|);
    TailAtEnd(jobs, quantum, StateAt(jobs, quantum, |g|), |g|, 0);
    forall t | 0 <= t <= |g|
      ensures StateAt(jobs, quantum, t).Tail() <= AllQuanta(jobs, quantum)
    {
      StateInv(jobs, quantum, t);
      TailBound(jobs, quantum, StateAt(jobs, quantum, t), t, 0);
    }
  }

  // ---------- waiting ----------

  lemma LongestWaitNonNegative(jobs: seq<Job>, quantum: nat)
    requires jobs != []
    ensures LongestWait(jobs, quantum) >= 0
  {
    Distribute(|jobs| - 1, 0, quantum);
  }

  /** What the invariant says of the process that just ran. */
  lemma RunningAccumulated(jobs: seq<Job>, quantum: nat, st: State, t: int)
    requires Inv(jobs, quantum, st, t, 0) && st.running != -1
    ensures var i := st.running;
            t - jobs[i].arrival - (jobs[i].burst - st.left[i])
            <= Times(Quanta(jobs[i].burst, quantum) - Quanta(st.left[i] - st.slice, quantum),
                     LongestWait(jobs, quantum))
  {
    hide Waits;
    hide LongestWait;
    hide Times;
    hide Quanta;
    assert AccumulatedAt(jobs, quantum, st, t, st.running);
  }

  lemma DrawnRunning(jobs: seq<Job>, quantum: nat, g: Chart, t: nat)
    requires Drawn(jobs, quantum, g) && 1 <= t <= |g|
    ensures g[t - 1] == StateAt(jobs, quantum, t).running && -1 <= g[t - 1] < |jobs|
  {
    hide Step;
    assert g[t - 1] == StateAt(jobs, quantum, t).running;
  }

  lemma TickAccumulated(jobs: seq<Job>, quantum: nat, g: Chart, t: nat)
    requires quantum >= 1 && Startable(jobs, quantum) && Drawn(jobs, quantum, g) && 1 <= t <= |g| && g[t - 1] != -1
    ensures 0 <= g[t - 1] < |jobs|
    ensures var i := g[t - 1];
            t - jobs[i].arrival - (jobs[i].burst - Left(jobs, g, t)[i])
            <= Times(Quanta(jobs[i].burst, quantum)
                     - Quanta(Left(jobs, g, t)[i] - StateAt(jobs, quantum, t).slice, quantum),
                     LongestWait(jobs, quantum))
  {
    hide *;
    StateInv(jobs, quantum, t);
    DrawnLeft(jobs, quantum, g, t);
    DrawnRunning(jobs, quantum, g, t);
    RunningAccumulated(jobs, quantum, StateAt(jobs, quantum, t), t);
  }

  /** A process finishes after its burst plus at most one longest wait per slice it needs. */
  lemma WaitingBound(jobs: seq<Job>, quantum: nat, g: Chart, i: nat)
    requires quantum >= 1 && Startable(jobs, quantum) && RoundRobinChart(jobs, quantum, g) && i < |jobs|
    ensures Finish(jobs, g, i, |g|) - jobs[i].arrival - jobs[i].burst
            <= Times(Quanta(jobs[i].burst, quantum), LongestWait(jobs, quantum))
  {
    hide *;
    RoundRobinFeasible(jobs, quantum, g);
    var f := FinishTick(jobs, g, i);
    TickAccumulated(jobs, quantum, g, f);
    LongestWaitNonNegative(jobs, quantum);
    var all: int, more: int := Quanta(jobs[i].burst, quantum), Quanta(0 - StateAt(jobs, quantum, f).slice, quantum);
    Scale(all - more, all, LongestWait(jobs, quantum));
  }

  lemma RoundRobinFeasible(jobs: seq<Job>, quantum: nat, g: Chart)
    requires Startable(jobs, quantum) && RoundRobinChart(jobs, quantum, g)
    ensures Sound(jobs) && quantum >= 1 && Feasible(jobs, g) && Drawn(jobs, quantum, g)
  {
    RoundRobinConserves(jobs, quantum, g);
  }

  /** The tick after which job `i` has nothing left is one in which it ran. */
  lemma FinishTick(jobs: seq<Job>, g: Chart, i: nat) returns (f: nat)
    requires Sound(jobs) && Feasible(jobs, g) && i < |jobs|
    ensures f == Finish(jobs, g, i, |g|) && 1 <= f <= |g| && g[f - 1] == i && Left(jobs, g, f)[i] == 0
  {
    f := |g|;
    while f > 0 && Left(jobs, g, f - 1)[i] == 0
      invariant f <= |g| && Left(jobs, g, f)[i] == 0
    {
      f := f - 1;
    }
    assert f > 0;
    LeftNonNegative(jobs, g, f - 1);
    FinishIsFirst(jobs, g, i, f, |g|);
  }

  /** A process first runs no later than one longest wait after its arrival. */
  lemma ResponseBound(jobs: seq<Job>, quantum: nat, g: Chart, i: nat, t: nat)
    requires Startable(jobs, quantum) && Drawn(jobs, quantum, g) && i < |jobs|
    requires t < |g| && g[t] == i && i !in g[..t]
    ensures t - jobs[i].arrival <= LongestWait(jobs, quantum)
  {
    hide Times;
    Untouched(jobs, g, t, i);
    assert Left(jobs, g, t + 1)[i] == jobs[i].burst - 1;
    assert Quanta(jobs[i].burst, quantum) - Quanta(jobs[i].burst - quantum, quantum) == 1;
    hide Quanta;
    hide StateAt;
    hide Left;
    hide LongestWait;
    hide Times;
    FirstSlice(jobs, quantum, g, i, t);
    TickAccumulated(jobs, quantum, g, t + 1);
    Distribute(1, 0, LongestWait(jobs, quantum));
  }

  lemma {:induction false} Untouched(jobs: seq<Job>, g: Chart, t: nat, i: nat)
    requires i < |jobs| && t <= |g| && i !in g[..t]
    ensures Left(jobs, g, t)[i] == jobs[i].burst
  {
    if t > 0 {
      assert g[..t][t - 1] == g[t - 1];
      assert forall u :: 0 <= u < t - 1 ==> g[..t - 1][u] == g[..t][u];
      Untouched(jobs, g, t - 1, i);
    }
  }

  /** The first tick of a process is the first of a full slice. */
  lemma FirstSlice(jobs: seq<Job>, quantum: nat, g: Chart, i: nat, t: nat)
    requires Startable(jobs, quantum) && Drawn(jobs, quantum, g) && i < |jobs|
    requires t < |g| && g[t] == i && i !in g[..t]
    ensures StateAt(jobs, quantum, t + 1).slice == quantum - 1
  {
    var st := StateAt(jobs, quantum, t);
    assert StateAt(jobs, quantum, t + 1).running == i;
    if t == 0 {
      assert st.running == -1;
    } else {
      assert g[..t][t - 1] == g[t - 1] == st.running;
    }
    hide StateAt;
    NewcomerSlice(jobs, quantum, st, t, i);
  }

  lemma NewcomerSlice(jobs: seq<Job>, quantum: nat, st: State, t: int, i: nat)
    requires WellSized(|jobs|, st) && st.running != i && Step(jobs, quantum, st, t).running == i
    ensures Step(jobs, quantum, st, t).slice == quantum - 1
  {
    ArriveSized(jobs, st, t, |jobs|);
  }
}
