/**
 The rule by which round robin chooses, read off the chart alone: a process keeps the CPU until it is done or its
 slice is used up; then it goes to the one that joined the line first, a newcomer before one that comes back at
 the same time, and newcomers in the order of the table. The rule leaves no choice.
 */
module RoundRobinOrder {
  import opened Schedule
  import opened Policies
  import opened RoundRobin
  import Runs = RoundRobinRuns
  import Comparison
  import Determined

  // ---------- the rule ----------

  /** The last tick before `t` in which process `i` ran, or -1. */
  function LastRun(g: Chart, t: nat, i: int): (u: int)
    ensures -1 <= u < t
    ensures u >= 0 ==> At(g, u) == i
    ensures forall v :: u < v < t ==> At(g, v) != i
  {
    if t == 0 then -1 else if At(g, t - 1) == i then t - 1 else LastRun(g, t - 1, i)
  }

  ghost predicate Ran(g: Chart, t: nat, i: int)
  {
    LastRun(g, t, i) >= 0
  }

  /** When process `i` joined the line: at its arrival, or when it last left the CPU. */
  function Joined(jobs: seq<Job>, g: Chart, t: nat, i: nat): (u: int)
    requires i < |jobs|
  {
    if LastRun(g, t, i) >= 0 then LastRun(g, t, i) + 1 else jobs[i].arrival
  }

  /** Process `i` comes before `j` in the line. */
  ghost predicate Before(jobs: seq<Job>, g: Chart, t: nat, i: nat, j: nat)
    requires i < |jobs| && j < |jobs|
  {
    || Joined(jobs, g, t, i) < Joined(jobs, g, t, j)
    || (Joined(jobs, g, t, i) == Joined(jobs, g, t, j) && !Ran(g, t, i) && (Ran(g, t, j) || i < j))
  }

  /** How much of its present slice the process of the tick before `t` has used. */
  function Used(quantum: nat, g: Chart, t: nat): (n: nat)
  {
    if t == 0 then 0
    else if t >= 2 && At(g, t - 2) == At(g, t - 1) && Used(quantum, g, t - 1) < quantum then Used(quantum, g, t - 1) + 1
    else 1
  }

  /** The process of the tick before is not done and has some of its slice left. */
  ghost predicate InTurn(jobs: seq<Job>, quantum: nat, g: Chart, t: nat)
  {
    && 0 < t && 0 <= At(g, t - 1) < |jobs|
    && Left(jobs, g, t)[At(g, t - 1)] > 0 && Used(quantum, g, t) < quantum
  }

  /** `i` is the first of the live processes in the line, or -1 when none is live. */
  ghost predicate FirstInLine(jobs: seq<Job>, g: Chart, t: nat, i: int)
  {
    var live := Backlog(jobs, g, t);
    if i == -1 then AllDone(live)
    else
      && 0 <= i < |jobs| && live[i] > 0
      && forall j :: 0 <= j < |jobs| && j != i && live[j] > 0 ==> Before(jobs, g, t, i, j)
  }

  ghost predicate TurnRule(jobs: seq<Job>, quantum: nat, g: Chart, t: nat)
  {
    if InTurn(jobs, quantum, g, t) then At(g, t) == At(g, t - 1) else FirstInLine(jobs, g, t, At(g, t))
  }

  // ---------- the queue is the line ----------

  ghost predicate InLine(jobs: seq<Job>, g: Chart, t: nat, queue: seq<nat>)
  {
    && (forall k :: 0 <= k < |queue| ==> queue[k] < |jobs|)
    && (forall j, k :: 0 <= j < k < |queue| ==> Before(jobs, g, t, queue[j], queue[k]))
  }

  /** Process `i` joined before `t`, or is a newcomer below `m`. */
  ghost predicate Came(jobs: seq<Job>, g: Chart, t: nat, m: nat, i: nat)
    requires i < |jobs|
  {
    Joined(jobs, g, t, i) < t || (Joined(jobs, g, t, i) == t && !Ran(g, t, i) && i < m)
  }

  ghost predicate AllCame(jobs: seq<Job>, g: Chart, t: nat, m: nat, queue: seq<nat>)
  {
    forall k :: 0 <= k < |queue| ==> queue[k] < |jobs| && Came(jobs, g, t, m, queue[k])
  }

  lemma NewcomerJoins(jobs: seq<Job>, g: Chart, t: nat, m: nat, queue: seq<nat>)
    requires InLine(jobs, g, t, queue) && AllCame(jobs, g, t, m, queue)
    requires m < |jobs| && jobs[m].arrival == t && !Ran(g, t, m)
    ensures InLine(jobs, g, t, queue + [m]) && AllCame(jobs, g, t, m + 1, queue + [m])
  {
    hide LastRun;
  }

  lemma LaterCame(jobs: seq<Job>, g: Chart, t: nat, m: nat, queue: seq<nat>)
    requires AllCame(jobs, g, t, m, queue)
    ensures AllCame(jobs, g, t, m + 1, queue)
  {
    hide LastRun, Joined, Ran;
  }

  /** The one whose slice is used up comes last. */
  lemma ReturnerJoins(jobs: seq<Job>, g: Chart, t: nat, m: nat, queue: seq<nat>, i: nat)
    requires InLine(jobs, g, t, queue) && AllCame(jobs, g, t, m, queue)
    requires i < |jobs| && 0 < t && At(g, t - 1) == i
    ensures InLine(jobs, g, t, queue + [i])
  {
    assert LastRun(g, t, i) == t - 1;
    hide LastRun;
  }

  lemma NotYetRun(jobs: seq<Job>, quantum: nat, g: Chart, t: nat, i: nat)
    requires Startable(jobs, quantum) && Drawn(jobs, quantum, g) && t <= |g| && i < |jobs| && jobs[i].arrival >= t
    ensures !Ran(g, t, i)
  {
    var u := LastRun(g, t, i);
    if u >= 0 {
      DrawnTick(jobs, quantum, g, u);
    }
  }

  lemma {:induction false} ArriveLine(jobs: seq<Job>, quantum: nat, g: Chart, st: State, t: nat, m: nat)
    requires Startable(jobs, quantum) && Drawn(jobs, quantum, g) && t <= |g| && m <= |jobs|
    requires |st.since| == |jobs| && InLine(jobs, g, t, st.queue) && AllCame(jobs, g, t, 0, st.queue)
    ensures var q := Arrive(jobs, st, t, m).queue; InLine(jobs, g, t, q) && AllCame(jobs, g, t, m, q)
  {
    hide *;
    ArriveUnfold(jobs, st, t, m);
    if m > 0 {
      ArriveLine(jobs, quantum, g, st, t, m - 1);
      var before := Arrive(jobs, st, t, m - 1);
      if jobs[m - 1].arrival == t {
        NotYetRun(jobs, quantum, g, t, m - 1);
        NewcomerJoins(jobs, g, t, m - 1, before.queue);
        JoinQueue(before, m - 1, t);
      } else {
        LaterCame(jobs, g, t, m - 1, before.queue);
      }
    }
  }

  lemma JoinQueue(st: State, i: nat, t: int)
    requires i < |st.since|
    ensures Join(st, i, t).queue == st.queue + [i]
  {
  }

  /** What the state says about the process of the tick before and its slice. */
  ghost predicate SliceIs(quantum: nat, g: Chart, t: nat, st: State)
  {
    && st.running == (if t == 0 then -1 else At(g, t - 1))
    && (st.running != -1 ==> 1 <= Used(quantum, g, t) && st.slice == quantum - Used(quantum, g, t))
  }

  ghost predicate Order(jobs: seq<Job>, quantum: nat, g: Chart, t: nat, st: State)
  {
    InLine(jobs, g, t, st.queue) && SliceIs(quantum, g, t, st)
  }

  /** Whoever is in the queue at the start of a tick joined before it. */
  lemma QueueCame(jobs: seq<Job>, quantum: nat, g: Chart, t: nat, st: State)
    requires Inv(jobs, quantum, st, t, 0) && SliceIs(quantum, g, t, st)
    ensures AllCame(jobs, g, t, 0, st.queue)
  {
    hide Waits, Accumulated, Futures, AllQuanta, Used;
    forall k | 0 <= k < |st.queue|
      ensures st.queue[k] < |jobs| && Came(jobs, g, t, 0, st.queue[k])
    {
      var i := st.queue[k];
      assert i in st.queue && Here(jobs, t, 0, i) && i != st.running;
    }
  }

  /** The process of the tick before stays, is done, or goes to the end of the line. */
  lemma SettleLine(jobs: seq<Job>, quantum: nat, g: Chart, t: nat, a: State)
    requires Inv(jobs, quantum, a, t, |jobs|) && WellSized(|jobs|, a) && a.left == Left(jobs, g, t)
    requires SliceIs(quantum, g, t, a) && InLine(jobs, g, t, a.queue) && AllCame(jobs, g, t, |jobs|, a.queue)
    ensures var b := Settle(a, t);
            && InLine(jobs, g, t, b.queue) && b.left == a.left
            && (b.running != -1 <==> InTurn(jobs, quantum, g, t))
            && (b.running != -1 ==> t > 0 && b.running == At(g, t - 1) && b.slice == a.slice)
  {
    hide Waits, Accumulated, Futures, AllQuanta, Used, Left, InLine, AllCame;
    if a.running != -1 && a.left[a.running] > 0 && a.slice == 0 {
      ReturnerJoins(jobs, g, t, |jobs|, a.queue, a.running);
    }
  }

  /** A free CPU goes to the first in the line. */
  lemma ChooseLine(jobs: seq<Job>, quantum: nat, g: Chart, t: nat, b: State)
    requires Inv(jobs, quantum, b, t, |jobs|) && WellSized(|jobs|, b) && b.left == Left(jobs, g, t)
    requires InLine(jobs, g, t, b.queue) && b.running == -1
    ensures FirstInLine(jobs, g, t, Dispatch(b, quantum).running)
  {
    hide Waits, Accumulated, Futures, AllQuanta, Left, Before;
    var live := Backlog(jobs, g, t);
    forall j | 0 <= j < |jobs|
      ensures live[j] >= 0 && (live[j] > 0 <==> j in b.queue)
    {
      assert Here(jobs, t, |jobs|, j) <==> jobs[j].arrival <= t;
    }
    if b.queue != [] {
      assert b.queue[0] in b.queue;
      assert forall j :: j in b.queue && j != b.queue[0] ==> exists k :: 0 < k < |b.queue| && b.queue[k] == j;
    }
  }

  /** Those who stay in the queue keep their order. */
  lemma TickLine(jobs: seq<Job>, g: Chart, t: nat, queue: seq<nat>)
    requires InLine(jobs, g, t, queue) && forall k :: 0 <= k < |queue| ==> queue[k] != At(g, t)
    ensures InLine(jobs, g, t + 1, queue)
  {
    assert forall k :: 0 <= k < |queue| ==> LastRun(g, t + 1, queue[k]) == LastRun(g, t, queue[k]);
    hide LastRun;
  }

  lemma DispatchLine(jobs: seq<Job>, quantum: nat, g: Chart, t: nat, b: State)
    requires WellSized(|jobs|, b) && InLine(jobs, g, t, b.queue)
    ensures InLine(jobs, g, t, Tick(Dispatch(b, quantum)).queue)
  {
    hide Before;
  }

  /** A new slice begins, or one more tick of the old one is used. */
  lemma SliceNext(jobs: seq<Job>, quantum: nat, g: Chart, t: nat, a: State)
    requires quantum >= 1 && WellSized(|jobs|, a) && SliceIs(quantum, g, t, a)
    requires At(g, t) == Tick(Dispatch(Settle(a, t), quantum)).running
    requires a.running != -1 ==> 0 <= a.slice
    requires At(g, t) != -1 ==> 0 <= At(g, t) < |jobs| && a.left[At(g, t)] > 0
    ensures SliceIs(quantum, g, t + 1, Tick(Dispatch(Settle(a, t), quantum)))
  {
  }

  lemma {:induction false} ArriveShape(jobs: seq<Job>, quantum: nat, g: Chart, st: State, t: nat)
    requires WellSized(|jobs|, st) && SliceIs(quantum, g, t, st)
    ensures var a := Arrive(jobs, st, t, |jobs|);
            WellSized(|jobs|, a) && SliceIs(quantum, g, t, a) && a.left == st.left
  {
    ArriveSized(jobs, st, t, |jobs|);
    Runs.ArriveSlice(jobs, st, t, |jobs|);
    hide Used, Arrive;
  }

  lemma MembersOf(jobs: seq<Job>, quantum: nat, st: State, t: int, m: nat)
    requires Inv(jobs, quantum, st, t, m)
    ensures WellSized(|jobs|, st) && quantum >= 1
    ensures st.running != -1 ==> 0 <= st.slice && st.running !in st.queue
  {
  }

  lemma StepIs(jobs: seq<Job>, quantum: nat, st: State, t: int)
    requires WellSized(|jobs|, st)
    ensures WellSized(|jobs|, Arrive(jobs, st, t, |jobs|))
    ensures Step(jobs, quantum, st, t) == Tick(Dispatch(Settle(Arrive(jobs, st, t, |jobs|), t), quantum))
  {
    ArriveSized(jobs, st, t, |jobs|);
  }

  /** One tick: the rule is obeyed and the queue stays the line. */
  lemma StepOrder(jobs: seq<Job>, quantum: nat, g: Chart, t: nat)
    requires Startable(jobs, quantum) && Drawn(jobs, quantum, g) && t < |g|
    requires Order(jobs, quantum, g, t, StateAt(jobs, quantum, t))
    ensures TurnRule(jobs, quantum, g, t) && Order(jobs, quantum, g, t + 1, StateAt(jobs, quantum, t + 1))
  {
    hide *;
    var st, r := StateAt(jobs, quantum, t), StateAt(jobs, quantum, t + 1);
    Runs.RunFacts(jobs, quantum, g, t);
    OrderParts(jobs, quantum, g, t, st);
    DrawnLeft(jobs, quantum, g, t);
    QueueCame(jobs, quantum, g, t, st);
    ArriveLine(jobs, quantum, g, st, t, |jobs|);
    ArriveShape(jobs, quantum, g, st, t);
    ArriveKeeps(jobs, quantum, st, t, |jobs|);
    var a := Arrive(jobs, st, t, |jobs|);
    StepIs(jobs, quantum, st, t);
    SettleLine(jobs, quantum, g, t, a);
    SettleKeeps(jobs, quantum, a, t, |jobs|);
    var b := Settle(a, t);
    MembersOf(jobs, quantum, a, t, |jobs|);
    MembersOf(jobs, quantum, b, t, |jobs|);
    ChartAt(g, t);
    if b.running == -1 {
      ChooseLine(jobs, quantum, g, t, b);
    }
    Obeyed(jobs, quantum, g, t, b);
    DispatchLine(jobs, quantum, g, t, b);
    StateInv(jobs, quantum, t + 1);
    MembersOf(jobs, quantum, r, t + 1, 0);
    NobodyTwice(r);
    TickLine(jobs, g, t, r.queue);
    Runs.RunFacts(jobs, quantum, g, t);
    StepRuns(jobs, quantum, st, t);
    SliceNext(jobs, quantum, g, t, a);
    IntroOrder(jobs, quantum, g, t + 1, r);
  }

  lemma ChartAt(g: Chart, t: nat)
    requires t < |g|
    ensures At(g, t) == g[t]
  {
  }

  lemma NobodyTwice(r: State)
    requires r.running != -1 ==> r.running !in r.queue
    ensures forall k :: 0 <= k < |r.queue| ==> r.queue[k] != r.running
  {
  }

  lemma Obeyed(jobs: seq<Job>, quantum: nat, g: Chart, t: nat, b: State)
    requires WellSized(|jobs|, b) && At(g, t) == Tick(Dispatch(b, quantum)).running
    requires b.running != -1 <==> InTurn(jobs, quantum, g, t)
    requires b.running != -1 ==> t > 0 && b.running == At(g, t - 1)
    requires b.running == -1 ==> FirstInLine(jobs, g, t, Dispatch(b, quantum).running)
    ensures TurnRule(jobs, quantum, g, t)
  {
    hide InTurn, FirstInLine;
  }

  lemma OrderParts(jobs: seq<Job>, quantum: nat, g: Chart, t: nat, st: State)
    requires Order(jobs, quantum, g, t, st)
    ensures InLine(jobs, g, t, st.queue) && SliceIs(quantum, g, t, st)
  {
  }

  lemma IntroOrder(jobs: seq<Job>, quantum: nat, g: Chart, t: nat, st: State)
    requires InLine(jobs, g, t, st.queue) && SliceIs(quantum, g, t, st)
    ensures Order(jobs, quantum, g, t, st)
  {
  }

  lemma InitialOrder(jobs: seq<Job>, quantum: nat, g: Chart)
    ensures Order(jobs, quantum, g, 0, StateAt(jobs, quantum, 0))
  {
  }

  lemma {:induction false} RunOrder(jobs: seq<Job>, quantum: nat, g: Chart, t: nat)
    requires Startable(jobs, quantum) && Drawn(jobs, quantum, g) && t <= |g|
    ensures Order(jobs, quantum, g, t, StateAt(jobs, quantum, t))
  {
    hide *;
    if t == 0 {
      InitialOrder(jobs, quantum, g);
    } else {
      RunOrder(jobs, quantum, g, t - 1);
      StepOrder(jobs, quantum, g, t - 1);
    }
  }

  /** Every tick of every round-robin chart obeys the rule. */
  lemma ObeysTurns(jobs: seq<Job>, quantum: nat, g: Chart, t: nat)
    requires Startable(jobs, quantum) && Drawn(jobs, quantum, g) && t < |g|
    ensures TurnRule(jobs, quantum, g, t)
  {
    hide *;
    RunOrder(jobs, quantum, g, t);
    StepOrder(jobs, quantum, g, t);
  }

  // ---------- the rule leaves no choice ----------

  ghost predicate TurnChart(jobs: seq<Job>, quantum: nat, g: Chart)
  {
    Feasible(jobs, g) && forall t :: 0 <= t < |g| ==> TurnRule(jobs, quantum, g, t)
  }

  lemma OneFirst(jobs: seq<Job>, g: Chart, t: nat, i: int, j: int)
    requires FirstInLine(jobs, g, t, i) && FirstInLine(jobs, g, t, j)
    ensures i == j
  {
    hide Joined, LastRun, Ran, Backlog;
  }

  lemma {:induction false} SameHistory(g: Chart, h: Chart, t: nat, quantum: nat, i: int)
    requires t <= |g| == |h| && g[..t] == h[..t]
    ensures LastRun(g, t, i) == LastRun(h, t, i) && Used(quantum, g, t) == Used(quantum, h, t)
    ensures t > 0 ==> At(g, t - 1) == At(h, t - 1)
  {
    if t > 0 {
      SamePrefix(g, h, t);
      SameHistory(g, h, t - 1, quantum, i);
    }
  }

  lemma SamePrefix(g: Chart, h: Chart, t: nat)
    requires 0 < t <= |g| == |h| && g[..t] == h[..t]
    ensures g[..t - 1] == h[..t - 1] && g[t - 1] == h[t - 1]
  {
    assert g[..t - 1] == g[..t][..t - 1] && h[..t - 1] == h[..t][..t - 1];
    assert g[t - 1] == g[..t][t - 1];
  }

  lemma SameRule(jobs: seq<Job>, quantum: nat, g: Chart, h: Chart, t: nat)
    requires t < |g| == |h| && g[..t] == h[..t]
    ensures InTurn(jobs, quantum, g, t) <==> InTurn(jobs, quantum, h, t)
    ensures t > 0 ==> At(g, t - 1) == At(h, t - 1)
    ensures forall i :: FirstInLine(jobs, g, t, i) <==> FirstInLine(jobs, h, t, i)
  {
    Determined.SamePast(jobs, g, h, t);
    forall i: int
      ensures LastRun(g, t, i) == LastRun(h, t, i)
    {
      SameHistory(g, h, t, quantum, i);
    }
    SameHistory(g, h, t, quantum, 0);
    hide LastRun, Used, Left, Backlog;
    forall i, j | 0 <= i < |jobs| && 0 <= j < |jobs|
      ensures Before(jobs, g, t, i, j) <==> Before(jobs, h, t, i, j)
    {
      assert LastRun(g, t, i) == LastRun(h, t, i) && LastRun(g, t, j) == LastRun(h, t, j);
    }
    hide Before;
  }

  lemma TurnAt(jobs: seq<Job>, quantum: nat, g: Chart, t: nat)
    requires TurnChart(jobs, quantum, g) && t < |g|
    ensures if InTurn(jobs, quantum, g, t) then t > 0 && At(g, t) == At(g, t - 1) else FirstInLine(jobs, g, t, At(g, t))
  {
    assert TurnRule(jobs, quantum, g, t);
    hide FirstInLine;
  }

  lemma {:induction false} TurnPrefix(jobs: seq<Job>, quantum: nat, g: Chart, h: Chart, t: nat)
    requires |g| == |h| && TurnChart(jobs, quantum, g) && TurnChart(jobs, quantum, h) && t <= |g|
    ensures g[..t] == h[..t]
  {
    hide *;
    if t > 0 {
      var u := t - 1;
      TurnPrefix(jobs, quantum, g, h, u);
      SameRule(jobs, quantum, g, h, u);
      TurnAt(jobs, quantum, g, u);
      TurnAt(jobs, quantum, h, u);
      if !InTurn(jobs, quantum, g, u) {
        OneFirst(jobs, g, u, At(g, u), At(h, u));
      }
      ChartAt(g, u);
      ChartAt(h, u);
      Determined.OneMore(g, h, t);
    }
  }

  lemma TurnConserves(jobs: seq<Job>, quantum: nat, g: Chart)
    requires TurnChart(jobs, quantum, g)
    ensures WorkConserving(jobs, g)
  {
    hide Feasible, Backlog, Used, LastRun, Before;
    forall t | 0 <= t < |g| && g[t] == -1
      ensures AllDone(Backlog(jobs, g, t))
    {
      assert TurnRule(jobs, quantum, g, t);
    }
  }

  /** A chart is the round-robin chart of its table if and only if it obeys the rule. */
  lemma TurnsAreRoundRobin(jobs: seq<Job>, quantum: nat, g: Chart, h: Chart)
    requires Startable(jobs, quantum) && RoundRobinChart(jobs, quantum, g) && Trimmed(g) && Trimmed(h)
    ensures TurnChart(jobs, quantum, h) <==> h == g
  {
    hide *;
    RoundRobinFeasible(jobs, quantum, g);
    forall t | 0 <= t < |g|
      ensures TurnRule(jobs, quantum, g, t)
    {
      ObeysTurns(jobs, quantum, g, t);
    }
    IntroTurns(jobs, quantum, g);
    if TurnChart(jobs, quantum, h) {
      TurnConserves(jobs, quantum, g);
      TurnConserves(jobs, quantum, h);
      Comparison.SameLength(jobs, g, h);
      TurnPrefix(jobs, quantum, g, h, |g|);
      Determined.Whole(g, h);
    }
  }

  lemma IntroTurns(jobs: seq<Job>, quantum: nat, g: Chart)
    requires Feasible(jobs, g) && forall t :: 0 <= t < |g| ==> TurnRule(jobs, quantum, g, t)
    ensures TurnChart(jobs, quantum, g)
  {
  }
}
