/**
 The links between tasks: thread groups, real parents and lists of children, as forking builds them, and
 the recursive walk over the process tree that `walk_process_tree` carries out without a stack.
 */
module ProcessTree {

  /**
   Tasks are numbered. `threads[l]` is the thread list of the group led by `l` and `slot` the place of a
   task in it; `children[p]` is the list of children of `p` and `sibling` the place of a child in it.
   */
  datatype Tasks = Tasks(leader: seq<nat>, parent: seq<nat>, slot: seq<nat>, sibling: seq<nat>,
                         threads: seq<seq<nat>>, children: seq<seq<nat>>)

  // ---------- well-formed links ----------

  ghost predicate Sized(ts: Tasks, rank: seq<nat>)
  {
    && |ts.leader| == |ts.parent| == |ts.slot| == |ts.sibling| == |ts.threads| == |ts.children| == |rank|
  }

  ghost predicate TaskOk(ts: Tasks, rank: seq<nat>, x: nat)
    requires Sized(ts, rank) && x < |rank|
  {
    var l := ts.leader[x];
    && l < |rank| && ts.leader[l] == l && ts.parent[x] < |rank|
    && ts.slot[x] < |ts.threads[l]| && ts.threads[l][ts.slot[x]] == x
  }

  ghost predicate ThreadOk(ts: Tasks, rank: seq<nat>, l: nat, i: nat)
    requires Sized(ts, rank) && l < |rank| && i < |ts.threads[l]|
  {
    var x := ts.threads[l][i];
    x < |rank| && ts.leader[x] == l && ts.slot[x] == i
  }

  /** Children lead their groups, and stand lower in the tree than the group of their parent. */
  ghost predicate ChildOk(ts: Tasks, rank: seq<nat>, p: nat, i: nat)
    requires Sized(ts, rank) && p < |rank| && i < |ts.children[p]|
  {
    var k := ts.children[p][i];
    && k < |rank| && ts.parent[k] == p && ts.leader[k] == k && ts.sibling[k] == i
    && ts.leader[p] < |rank| && rank[k] < rank[ts.leader[p]]
  }

  ghost predicate WellFormed(ts: Tasks, rank: seq<nat>)
  {
    && Sized(ts, rank)
    && (forall x :: 0 <= x < |rank| ==> TaskOk(ts, rank, x))
    && (forall l, i :: 0 <= l < |rank| && 0 <= i < |ts.threads[l]| ==> ThreadOk(ts, rank, l, i))
    && (forall p, i :: 0 <= p < |rank| && 0 <= i < |ts.children[p]| ==> ChildOk(ts, rank, p, i))
  }

  // ---------- forking keeps the links well-formed ----------

  /** The first task, its own parent and alone in its group. */
  function InitTask(): (ts: Tasks)
  {
    Tasks([0], [0], [0], [0], [[0]], [[]])
  }

  lemma InitWellFormed()
    ensures WellFormed(InitTask(), [0])
  {
    var ts := InitTask();
    assert TaskOk(ts, [0], 0) && ThreadOk(ts, [0], 0, 0);
  }

  /** CLONE_THREAD: the new task joins the group of `current` and shares its real parent. */
  function CloneThread(ts: Tasks, current: nat): (ts': Tasks)
    requires current < |ts.leader| && |ts.leader| == |ts.parent| == |ts.threads|
    requires ts.leader[current] < |ts.threads|
  {
    var x, l := |ts.leader|, ts.leader[current];
    Tasks(ts.leader + [l], ts.parent + [ts.parent[current]], ts.slot + [|ts.threads[l]|], ts.sibling + [0],
          ts.threads[l := ts.threads[l] + [x]] + [[]], ts.children + [[]])
  }

  /** A new process below `current`, or with CLONE_PARENT below its real parent. */
  function CloneProcess(ts: Tasks, current: nat, sameParent: bool): (ts': Tasks)
    requires current < |ts.leader| && |ts.leader| == |ts.parent| == |ts.children|
    requires ts.parent[current] < |ts.children|
  {
    var x := |ts.leader|;
    var p := if sameParent then ts.parent[current] else current;
    Tasks(ts.leader + [x], ts.parent + [p], ts.slot + [0], ts.sibling + [|ts.children[p]|],
          ts.threads + [[x]], ts.children[p := ts.children[p] + [x]] + [[]])
  }

  /** Everyone moves up one, the newcomer stands at the bottom. */
  function RankBelow(rank: seq<nat>): (r: seq<nat>)
    ensures |r| == |rank| + 1 && r[|rank|] == 0
    ensures forall i :: 0 <= i < |rank| ==> r[i] == rank[i] + 1
  {
    seq(|rank|, i requires 0 <= i < |rank| => rank[i] + 1) + [0]
  }

  lemma CloneProcessKeeps(ts: Tasks, rank: seq<nat>, current: nat, sameParent: bool)
    requires WellFormed(ts, rank) && current < |rank|
    ensures ts.parent[current] < |ts.children|
    ensures WellFormed(CloneProcess(ts, current, sameParent), RankBelow(rank))
  {
    assert TaskOk(ts, rank, current);
    var n := |rank|;
    var p := if sameParent then ts.parent[current] else current;
    var r, rank' := CloneProcess(ts, current, sameParent), RankBelow(rank);
    forall x | 0 <= x < n + 1
      ensures TaskOk(r, rank', x)
    {
      if x < n {
        assert TaskOk(ts, rank, x);
      }
    }
    forall l, i | 0 <= l < n + 1 && 0 <= i < |r.threads[l]|
      ensures ThreadOk(r, rank', l, i)
    {
      if l < n {
        assert ThreadOk(ts, rank, l, i);
      }
    }
    forall q, i | 0 <= q < n + 1 && 0 <= i < |r.children[q]|
      ensures ChildOk(r, rank', q, i)
    {
      assert TaskOk(ts, rank, q);
      if i < |ts.children[q]| {
        assert ChildOk(ts, rank, q, i);
      }
    }
  }

  lemma CloneThreadKeeps(ts: Tasks, rank: seq<nat>, current: nat)
    requires WellFormed(ts, rank) && current < |rank|
    ensures ts.leader[current] < |ts.threads|
    ensures WellFormed(CloneThread(ts, current), RankBelow(rank))
  {
    assert TaskOk(ts, rank, current);
    var n := |rank|;
    var r, rank' := CloneThread(ts, current), RankBelow(rank);
    forall x | 0 <= x < n + 1
      ensures TaskOk(r, rank', x)
    {
      if x < n {
        assert TaskOk(ts, rank, x);
      }
    }
    forall l, i | 0 <= l < n + 1 && 0 <= i < |r.threads[l]|
      ensures ThreadOk(r, rank', l, i)
    {
      if i < |ts.threads[l]| {
        assert ThreadOk(ts, rank, l, i);
      }
    }
    forall p, i | 0 <= p < n + 1 && 0 <= i < |r.children[p]|
      ensures ChildOk(r, rank', p, i)
    {
      assert ChildOk(ts, rank, p, i);
    }
  }

  datatype Fork = Thread(current: nat) | Process(current: nat, sameParent: bool)

  /** The links after a history of forks, from the first task alone. */
  ghost function Forked(forks: seq<Fork>): (r: (Tasks, seq<nat>))
    ensures WellFormed(r.0, r.1) && |r.1| == |forks| + 1
  {
    if forks == [] then
      InitWellFormed();
      (InitTask(), [0])
    else
      var (ts, rank) := Forked(forks[..|forks| - 1]);
      var fork := forks[|forks| - 1];
      var current := if fork.current < |rank| then fork.current else 0;
      CloneThreadKeeps(ts, rank, current);
      CloneProcessKeeps(ts, rank, current, fork.Process? && fork.sameParent);
      (if fork.Thread? then CloneThread(ts, current) else CloneProcess(ts, current, fork.sameParent), RankBelow(rank))
  }

  // ---------- the recursive walk ----------

  /** `k` is a child of some thread of the group led by `l`. */
  ghost predicate KidOf(ts: Tasks, rank: seq<nat>, l: nat, k: nat)
    requires Sized(ts, rank) && l < |rank|
  {
    && k < |rank| && ts.leader[k] == k && rank[k] < rank[l]
    && ts.parent[k] < |rank| && ts.leader[ts.parent[k]] == l
    && ts.sibling[k] < |ts.children[ts.parent[k]]| && ts.children[ts.parent[k]][ts.sibling[k]] == k
  }

  ghost predicate AllKids(ts: Tasks, rank: seq<nat>, l: nat, kids: seq<nat>)
    requires Sized(ts, rank) && l < |rank|
  {
    forall i :: 0 <= i < |kids| ==> KidOf(ts, rank, l, kids[i])
  }

  lemma ThreadKids(ts: Tasks, rank: seq<nat>, l: nat, t: nat)
    requires WellFormed(ts, rank) && l < |rank| && t < |ts.threads[l]|
    ensures ts.threads[l][t] < |rank| && AllKids(ts, rank, l, ts.children[ts.threads[l][t]])
  {
    assert ThreadOk(ts, rank, l, t);
    var p := ts.threads[l][t];
    forall i | 0 <= i < |ts.children[p]|
      ensures KidOf(ts, rank, l, ts.children[p][i])
    {
      assert ChildOk(ts, rank, p, i);
    }
  }

  /** The children of the threads of a group from the `t`-th thread on. */
  ghost function KidsFrom(ts: Tasks, rank: seq<nat>, l: nat, t: nat): (kids: seq<nat>)
    requires WellFormed(ts, rank) && l < |rank|
    ensures AllKids(ts, rank, l, kids)
    decreases |ts.threads[l]| - t
  {
    if t >= |ts.threads[l]| then [] else
      ThreadKids(ts, rank, l, t);
      var p := ts.threads[l][t];
      ts.children[p] + KidsFrom(ts, rank, l, t + 1)
  }

  ghost function Kids(ts: Tasks, rank: seq<nat>, l: nat): (kids: seq<nat>)
    requires WellFormed(ts, rank) && l < |rank|
    ensures AllKids(ts, rank, l, kids)
  {
    KidsFrom(ts, rank, l, 0)
  }

  ghost predicate Low(rank: seq<nat>, h: nat, kids: seq<nat>)
  {
    forall i :: 0 <= i < |kids| ==> kids[i] < |rank| && rank[kids[i]] < h
  }

  datatype Outcome<D> = Outcome(stopped: bool, data: D)

  /** Preorder: descend on a positive answer, stop the whole walk on a negative one. */
  ghost function Walk<D>(ts: Tasks, rank: seq<nat>, h: nat, kids: seq<nat>, visit: (nat, D) -> (int, D), d: D)
    : (r: Outcome<D>)
    requires WellFormed(ts, rank) && Low(rank, h, kids)
    decreases h, |kids|
  {
    if kids == [] then Outcome(false, d) else
      var (res, d1) := visit(kids[0], d);
      if res < 0 then Outcome(true, d1)
      else if res == 0 then Walk(ts, rank, h, kids[1..], visit, d1)
      else
        var below := Walk(ts, rank, rank[kids[0]], Kids(ts, rank, kids[0]), visit, d1);
        if below.stopped then below else Walk(ts, rank, h, kids[1..], visit, below.data)
  }

  // ---------- what the loop has still to do ----------

  /** `top` is reached from `l` by going from leaders to the leaders of their parents. */
  ghost predicate Under(ts: Tasks, rank: seq<nat>, top: nat, l: nat)
    requires WellFormed(ts, rank) && top < |rank| && l < |rank|
    decreases rank[top] as int - rank[l] as int
  {
    l == top ||
    (rank[l] < rank[top] && ts.parent[l] < |rank| && ts.leader[ts.parent[l]] < |rank|
     && KidOf(ts, rank, ts.leader[ts.parent[l]], l) && Under(ts, rank, top, ts.leader[ts.parent[l]]))
  }

  /** A place in the walk: the `c`-th child of the `t`-th thread of the group led by `l`. */
  datatype Place = Place(l: nat, t: nat, c: nat)

  ghost predicate At(ts: Tasks, rank: seq<nat>, at: Place)
    requires WellFormed(ts, rank) && at.l < |rank|
  {
    && at.t <= |ts.threads[at.l]|
    && (at.t < |ts.threads[at.l]| ==>
          ts.threads[at.l][at.t] < |rank| && at.c <= |ts.children[ts.threads[at.l][at.t]]|)
  }

  ghost predicate Position(ts: Tasks, rank: seq<nat>, top: nat, at: Place)
  {
    WellFormed(ts, rank) && top < |rank| && at.l < |rank| && Under(ts, rank, top, at.l) && At(ts, rank, at)
  }

  /** The children still to be visited in the group of a place. */
  ghost function Rest(ts: Tasks, rank: seq<nat>, top: nat, at: Place): (kids: seq<nat>)
    requires Position(ts, rank, top, at)
    ensures AllKids(ts, rank, at.l, kids) && Low(rank, rank[at.l], kids)
  {
    if at.t == |ts.threads[at.l]| then [] else
      ThreadKids(ts, rank, at.l, at.t);
      ts.children[ts.threads[at.l][at.t]][at.c..] + KidsFrom(ts, rank, at.l, at.t + 1)
  }

  /** The place right behind the leader of a group in the lists of its parent. */
  ghost function Up(ts: Tasks, rank: seq<nat>, top: nat, at: Place): (up: Place)
    requires Position(ts, rank, top, at) && at.l != top
    ensures Position(ts, rank, top, up) && rank[at.l] < rank[up.l] <= rank[top]
  {
    var p := ts.parent[at.l];
    assert TaskOk(ts, rank, p);
    Place(ts.leader[p], ts.slot[p], ts.sibling[at.l] + 1)
  }

  /** The rest of the walk from a place: the rest of the group, then upwards. */
  ghost function Resume<D>(ts: Tasks, rank: seq<nat>, top: nat, at: Place, visit: (nat, D) -> (int, D), d: D)
    : (r: Outcome<D>)
    requires Position(ts, rank, top, at)
    decreases rank[top] as int - rank[at.l] as int
  {
    var r := Walk(ts, rank, rank[at.l], Rest(ts, rank, top, at), visit, d);
    if r.stopped || at.l == top then r else
      Resume(ts, rank, top, Up(ts, rank, top, at), visit, r.data)
  }

  // ---------- how much is left ----------

  ghost function Weights(ts: Tasks, rank: seq<nat>, h: nat, kids: seq<nat>): (n: nat)
    requires WellFormed(ts, rank) && Low(rank, h, kids)
    decreases h, |kids|
  {
    if kids == [] then 0 else
      var k := kids[0];
      2 + |ts.threads[k]| + Weights(ts, rank, rank[k], Kids(ts, rank, k)) + Weights(ts, rank, h, kids[1..])
  }

  ghost function Pending(ts: Tasks, rank: seq<nat>, top: nat, at: Place): (n: nat)
    requires Position(ts, rank, top, at)
    decreases rank[top] as int - rank[at.l] as int
  {
    |ts.threads[at.l]| - at.t + Weights(ts, rank, rank[at.l], Rest(ts, rank, top, at)) +
    if at.l == top then 0 else 1 + Pending(ts, rank, top, Up(ts, rank, top, at))
  }

  // ---------- the steps of the loop ----------

  /** The current child, and the places of its group and of its next sibling. */
  lemma NextChild(ts: Tasks, rank: seq<nat>, top: nat, at: Place)
    requires Position(ts, rank, top, at)
    requires at.t < |ts.threads[at.l]| && at.c < |ts.children[ts.threads[at.l][at.t]]|
    ensures var k := ts.children[ts.threads[at.l][at.t]][at.c]; var next := at.(c := at.c + 1);
            && k < |rank| && k != top
            && Position(ts, rank, top, next) && Position(ts, rank, top, Place(k, 0, 0))
            && Up(ts, rank, top, Place(k, 0, 0)) == next
            && Rest(ts, rank, top, at) == [k] + Rest(ts, rank, top, next)
            && Rest(ts, rank, top, Place(k, 0, 0)) == Kids(ts, rank, k)
  {
    var p := ts.threads[at.l][at.t];
    assert ThreadOk(ts, rank, at.l, at.t) && ChildOk(ts, rank, p, at.c);
    var k := ts.children[p][at.c];
    assert TaskOk(ts, rank, k);
    assert ThreadOk(ts, rank, k, 0);
  }

  lemma NextThread(ts: Tasks, rank: seq<nat>, top: nat, at: Place)
    requires Position(ts, rank, top, at)
    requires at.t < |ts.threads[at.l]| && at.c == |ts.children[ts.threads[at.l][at.t]]|
    ensures var next := Place(at.l, at.t + 1, 0);
            Position(ts, rank, top, next) && Rest(ts, rank, top, at) == Rest(ts, rank, top, next)
            && (at.l != top ==> Up(ts, rank, top, at) == Up(ts, rank, top, next))
  {
    if at.t + 1 < |ts.threads[at.l]| {
      assert ThreadOk(ts, rank, at.l, at.t + 1);
    }
    hide WellFormed, AllKids, Low, Under;
  }

  lemma FirstPlace(ts: Tasks, rank: seq<nat>, top: nat)
    requires WellFormed(ts, rank) && top < |rank|
    ensures Position(ts, rank, top, Place(top, 0, 0)) && Rest(ts, rank, top, Place(top, 0, 0)) == Kids(ts, rank, top)
  {
    if |ts.threads[top]| > 0 {
      assert ThreadOk(ts, rank, top, 0);
    }
  }

  lemma WalkCons<D>(ts: Tasks, rank: seq<nat>, h: nat, k: nat, kids: seq<nat>, visit: (nat, D) -> (int, D), d: D)
    requires WellFormed(ts, rank) && Low(rank, h, [k] + kids) && Low(rank, h, kids) && k < |rank|
    ensures var (res, d1) := visit(k, d); var all := Walk(ts, rank, h, [k] + kids, visit, d);
            && (res < 0 ==> all == Outcome(true, d1))
            && (res == 0 ==> all == Walk(ts, rank, h, kids, visit, d1))
            && (res > 0 ==> var below := Walk(ts, rank, rank[k], Kids(ts, rank, k), visit, d1);
                            all == if below.stopped then below else Walk(ts, rank, h, kids, visit, below.data))
  {
    assert ([k] + kids)[1..] == kids;
    hide WellFormed, Kids;
  }

  lemma WeightsCons(ts: Tasks, rank: seq<nat>, h: nat, k: nat, kids: seq<nat>)
    requires WellFormed(ts, rank) && Low(rank, h, [k] + kids) && Low(rank, h, kids) && k < |rank|
    ensures Weights(ts, rank, h, [k] + kids)
            == 2 + |ts.threads[k]| + Weights(ts, rank, rank[k], Kids(ts, rank, k)) + Weights(ts, rank, h, kids)
  {
    assert ([k] + kids)[1..] == kids;
    hide WellFormed, Kids;
  }

  lemma ResumeIs<D>(ts: Tasks, rank: seq<nat>, top: nat, at: Place, visit: (nat, D) -> (int, D), d: D)
    requires Position(ts, rank, top, at)
    ensures var r := Walk(ts, rank, rank[at.l], Rest(ts, rank, top, at), visit, d);
            Resume(ts, rank, top, at, visit, d)
            == if r.stopped || at.l == top then r else Resume(ts, rank, top, Up(ts, rank, top, at), visit, r.data)
  {
  }

  lemma PendingIs(ts: Tasks, rank: seq<nat>, top: nat, at: Place)
    requires Position(ts, rank, top, at)
    ensures at.t <= |ts.threads[at.l]|
    ensures Pending(ts, rank, top, at)
            == |ts.threads[at.l]| - at.t + Weights(ts, rank, rank[at.l], Rest(ts, rank, top, at)) +
               if at.l == top then 0 else 1 + Pending(ts, rank, top, Up(ts, rank, top, at))
  {
  }

  lemma StepThread<D>(ts: Tasks, rank: seq<nat>, top: nat, at: Place, visit: (nat, D) -> (int, D), d: D)
    requires Position(ts, rank, top, at)
    requires at.t < |ts.threads[at.l]| && at.c == |ts.children[ts.threads[at.l][at.t]]|
    ensures var next := Place(at.l, at.t + 1, 0);
            && Position(ts, rank, top, next)
            && Resume(ts, rank, top, next, visit, d) == Resume(ts, rank, top, at, visit, d)
            && Pending(ts, rank, top, next) < Pending(ts, rank, top, at)
  {
    NextThread(ts, rank, top, at);
    var next := Place(at.l, at.t + 1, 0);
    ResumeIs(ts, rank, top, at, visit, d);
    ResumeIs(ts, rank, top, next, visit, d);
    PendingIs(ts, rank, top, at);
    PendingIs(ts, rank, top, next);
    hide WellFormed, Under, At, Walk, Weights, Rest, Resume, Pending, Up;
  }

  lemma StepUp<D>(ts: Tasks, rank: seq<nat>, top: nat, at: Place, visit: (nat, D) -> (int, D), d: D)
    requires Position(ts, rank, top, at) && at.t == |ts.threads[at.l]| && at.l != top
    ensures var up := Up(ts, rank, top, at);
            && Resume(ts, rank, top, up, visit, d) == Resume(ts, rank, top, at, visit, d)
            && Pending(ts, rank, top, up) < Pending(ts, rank, top, at)
  {
    assert Rest(ts, rank, top, at) == [];
    ResumeIs(ts, rank, top, at, visit, d);
    PendingIs(ts, rank, top, at);
    hide WellFormed, Under, At, Rest, Resume, Pending, Up;
  }

  /** The three answers a visitor can give. */
  lemma StepVisit<D>(ts: Tasks, rank: seq<nat>, top: nat, at: Place, visit: (nat, D) -> (int, D), d: D)
    requires Position(ts, rank, top, at)
    requires at.t < |ts.threads[at.l]| && at.c < |ts.children[ts.threads[at.l][at.t]]|
    ensures var k := ts.children[ts.threads[at.l][at.t]][at.c]; var (res, d1) := visit(k, d);
            var all := Resume(ts, rank, top, at, visit, d); var n := Pending(ts, rank, top, at);
            var next, down := at.(c := at.c + 1), Place(k, 0, 0);
            && Position(ts, rank, top, next) && Position(ts, rank, top, down)
            && Pending(ts, rank, top, next) < n && Pending(ts, rank, top, down) < n
            && (res < 0 ==> all == Outcome(true, d1))
            && (res == 0 ==> all == Resume(ts, rank, top, next, visit, d1))
            && (res > 0 ==> all == Resume(ts, rank, top, down, visit, d1))
  {
    NextChild(ts, rank, top, at);
    var k := ts.children[ts.threads[at.l][at.t]][at.c];
    var next, down := at.(c := at.c + 1), Place(k, 0, 0);
    var (res, d1) := visit(k, d);
    SameUp(ts, rank, top, at, next);
    hide WellFormed, Under, At, Rest, Walk, Weights, Resume, Pending, Up, Kids, Low, AllKids;
    WalkCons(ts, rank, rank[at.l], k, Rest(ts, rank, top, next), visit, d);
    WeightsCons(ts, rank, rank[at.l], k, Rest(ts, rank, top, next));
    ResumeIs(ts, rank, top, at, visit, d);
    ResumeIs(ts, rank, top, next, visit, d1);
    ResumeIs(ts, rank, top, down, visit, d1);
    PendingIs(ts, rank, top, at);
    PendingIs(ts, rank, top, next);
    PendingIs(ts, rank, top, down);
    if res > 0 {
      var below := Walk(ts, rank, rank[k], Kids(ts, rank, k), visit, d1);
      ResumeIs(ts, rank, top, next, visit, below.data);
    }
  }

  lemma SameUp(ts: Tasks, rank: seq<nat>, top: nat, at: Place, next: Place)
    requires Position(ts, rank, top, at) && Position(ts, rank, top, next) && at.l == next.l
    ensures at.l != top ==> Up(ts, rank, top, at) == Up(ts, rank, top, next)
  {
  }

  lemma PlaceBounds(ts: Tasks, rank: seq<nat>, top: nat, at: Place)
    requires Position(ts, rank, top, at)
    ensures WellFormed(ts, rank) && Sized(ts, rank) && top < |rank| && at.l < |rank|
    ensures |ts.leader| == |ts.parent| == |ts.slot| == |ts.sibling| == |ts.threads| == |ts.children| == |rank|
    ensures at.t <= |ts.threads[at.l]|
    ensures at.t < |ts.threads[at.l]| ==>
              ts.threads[at.l][at.t] < |rank| && at.c <= |ts.children[ts.threads[at.l][at.t]]|
  {
  }

  lemma UpIs(ts: Tasks, rank: seq<nat>, top: nat, at: Place)
    requires Position(ts, rank, top, at) && at.l != top
    ensures Sized(ts, rank) && ts.parent[at.l] < |rank|
    ensures Up(ts, rank, top, at) == Place(ts.leader[ts.parent[at.l]], ts.slot[ts.parent[at.l]], ts.sibling[at.l] + 1)
  {
  }

  lemma WalkStart<D>(ts: Tasks, rank: seq<nat>, start: nat, visit: (nat, D) -> (int, D), d: D)
    requires WellFormed(ts, rank) && start < |rank|
    ensures |ts.leader| == |rank| && ts.leader[start] < |rank|
    ensures var top := ts.leader[start]; var at := Place(top, 0, 0);
            && Low(rank, rank[top], Kids(ts, rank, top)) && Position(ts, rank, top, at)
            && Resume(ts, rank, top, at, visit, d) == Walk(ts, rank, rank[top], Kids(ts, rank, top), visit, d)
  {
    assert TaskOk(ts, rank, start);
    var top := ts.leader[start];
    FirstPlace(ts, rank, top);
    ResumeIs(ts, rank, top, Place(top, 0, 0), visit, d);
    hide Walk, Kids, Resume, Rest;
  }

  // ---------- walk_process_tree ----------

  /** The loop keeps only the leader of the current group and its places in two lists. */
  method WalkProcessTree<D>(ts: Tasks, ghost rank: seq<nat>, start: nat, visit: (nat, D) -> (int, D), data: D)
    returns (d: D, stopped: bool)
    requires WellFormed(ts, rank) && start < |rank|
    ensures ts.leader[start] < |rank|
    ensures var top := ts.leader[start];
            Outcome(stopped, d) == Walk(ts, rank, rank[top], Kids(ts, rank, top), visit, data)
  {
    hide *;
    WalkStart(ts, rank, start, visit, data);
    var top := ts.leader[start];
    var leader: nat, t: nat, c: nat := top, 0, 0;
    d := data;
    while true
      invariant Position(ts, rank, top, Place(leader, t, c))
      invariant Resume(ts, rank, top, Place(leader, t, c), visit, d)
                == Walk(ts, rank, rank[top], Kids(ts, rank, top), visit, data)
      decreases Pending(ts, rank, top, Place(leader, t, c))
    {
      ghost var at := Place(leader, t, c);
      PlaceBounds(ts, rank, top, at);
      if t < |ts.threads[leader]| {
        var parent := ts.threads[leader][t];
        if c < |ts.children[parent]| {
          var child := ts.children[parent][c];
          StepVisit(ts, rank, top, at, visit, d);
          var (res, next) := visit(child, d);
          d := next;
          if res < 0 {
            return d, true;
          } else if res > 0 {
            leader, t, c := child, 0, 0;
          } else {
            c := c + 1;
          }
        } else {
          StepThread(ts, rank, top, at, visit, d);
          t, c := t + 1, 0;
        }
      } else if leader != top {
        StepUp(ts, rank, top, at, visit, d);
        UpIs(ts, rank, top, at);
        var child := leader;
        var parent := ts.parent[child];
        leader := ts.leader[parent];
        t, c := ts.slot[parent], ts.sibling[child] + 1;
      } else {
        Finished(ts, rank, top, at, visit, d);
        return d, false;
      }
    }
  }

  lemma Finished<D>(ts: Tasks, rank: seq<nat>, top: nat, at: Place, visit: (nat, D) -> (int, D), d: D)
    requires Position(ts, rank, top, at) && at.t == |ts.threads[at.l]| && at.l == top
    ensures Resume(ts, rank, top, at, visit, d) == Outcome(false, d)
  {
    assert Rest(ts, rank, top, at) == [];
  }
}
