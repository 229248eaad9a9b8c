/**
 Two ways to add up pairs of numbers in parallel: a tree of forked processes that pass their sums through
 exit statuses, and a tree of threads whose ids sit in an array like a heap.
 */
module ParallelSum {

  function Pow2(n: nat): (p: nat)
    ensures p >= 1
  {
    if n == 0 then 1 else 2 * Pow2(n - 1)
  }

  function Total(vals: seq<int>): (t: int)
  {
    if vals == [] then 0 else vals[0] + Total(vals[1..])
  }

  /** What `exit` leaves of a sum in the status, and `wait` shifts out again: its low eight bits. */
  function Status(sum: int): (s: nat)
    ensures s < 256
  {
    sum % 256
  }

  // ---------- the process tree ----------

  /**
   The indices in the subtree of a process that has index `idx` when it enters round `level` of `d`: it
   keeps its index and goes on, and the child it forks adds the bit of the round.
   */
  function Indices(d: nat, idx: nat, level: nat): (ids: seq<nat>)
    requires level <= d
    decreases d - level
  {
    if level == d then [idx] else Indices(d, idx, level + 1) + Indices(d, idx + Pow2(level), level + 1)
  }

  /** The sum of a weight over a list of indices. */
  function Weigh(ids: seq<nat>, w: nat -> int): (t: int)
  {
    if ids == [] then 0 else w(ids[0]) + Weigh(ids[1..], w)
  }

  lemma {:induction false} WeighConcat(a: seq<nat>, b: seq<nat>, w: nat -> int)
    ensures Weigh(a + b, w) == Weigh(a, w) + Weigh(b, w)
  {
    if a == [] {
      assert a + b == b;
    } else {
      assert (a + b)[1..] == a[1..] + b;
      WeighConcat(a[1..], b, w);
    }
  }

  /** The weight of `from`, `from + step`, and so on, `n` numbers in all. */
  function Strided(from: nat, step: nat, n: nat, w: nat -> int): (t: int)
    decreases n
  {
    if n == 0 then 0 else w(from) + Strided(from + step, step, n - 1, w)
  }

  /** Every other number, and those in between. */
  lemma {:induction false} SplitStride(from: nat, step: nat, n: nat, w: nat -> int)
    ensures Strided(from, step, 2 * n, w) == Strided(from, 2 * step, n, w) + Strided(from + step, 2 * step, n, w)
    decreases n
  {
    if n > 0 {
      SplitStride(from + 2 * step, step, n - 1, w);
      assert Strided(from, step, 2 * n, w)
          == w(from) + w(from + step) + Strided(from + step + step, step, 2 * n - 2, w);
      assert from + step + 2 * step == from + 2 * step + step;
    }
  }

  /** From round `level` on the indices of a subtree are those that agree with `idx` in the low bits. */
  lemma {:induction false} SubtreeIndices(d: nat, idx: nat, level: nat, w: nat -> int)
    requires level <= d
    ensures Weigh(Indices(d, idx, level), w) == Strided(idx, Pow2(level), Pow2(d - level), w)
    decreases d - level
  {
    hide *;
    var step := Pow2(level);
    if level == d {
      OneIndex(d, idx, step, w);
    } else {
      SubtreeIndices(d, idx, level + 1, w);
      SubtreeIndices(d, idx + step, level + 1, w);
      IndicesSplit(d, idx, level, w);
      Doubling(level);
      Doubling(d - level - 1);
      SplitStride(idx, step, Pow2(d - level - 1), w);
    }
  }

  lemma OneIndex(d: nat, idx: nat, step: nat, w: nat -> int)
    ensures Pow2(0) == 1 && Weigh(Indices(d, idx, d), w) == Strided(idx, step, 1, w)
  {
    assert Strided(idx, step, 1, w) == w(idx) + Strided(idx + step, step, 0, w);
    assert Indices(d, idx, d) == [idx];
  }

  lemma Doubling(n: nat)
    ensures Pow2(n + 1) == 2 * Pow2(n)
  {
  }

  /** A round splits the indices between the process and the child it forks. */
  lemma IndicesSplit(d: nat, idx: nat, level: nat, w: nat -> int)
    requires level < d
    ensures Weigh(Indices(d, idx, level), w)
            == Weigh(Indices(d, idx, level + 1), w) + Weigh(Indices(d, idx + Pow2(level), level + 1), w)
  {
    hide Pow2, Weigh;
    WeighConcat(Indices(d, idx, level + 1), Indices(d, idx + Pow2(level), level + 1), w);
  }

  lemma {:induction false} WeighCounts(ids: seq<nat>, x: nat)
    ensures Weigh(ids, i => if i == x then 1 else 0) == multiset(ids)[x]
  {
    if ids != [] {
      WeighCounts(ids[1..], x);
      assert ids == [ids[0]] + ids[1..];
    }
  }

  lemma {:induction false} StridedCounts(from: nat, n: nat, x: nat)
    ensures Strided(from, 1, n, i => if i == x then 1 else 0) == if from <= x < from + n then 1 else 0
    decreases n
  {
    if n > 0 {
      StridedCounts(from + 1, n - 1, x);
    }
  }

  /** The forked processes have the indices 0 to 2^d - 1, each exactly once. */
  lemma ForkIndices(d: nat, x: nat)
    ensures multiset(Indices(d, 0, 0))[x] == if x < Pow2(d) then 1 else 0
  {
    var w := (i: nat) => if i == x then 1 else 0;
    SubtreeIndices(d, 0, 0, w);
    WeighCounts(Indices(d, 0, 0), x);
    StridedCounts(0, Pow2(d), x);
    SameWeights(Indices(d, 0, 0), Pow2(d), w, i => if i == x then 1 else 0);
  }

  lemma {:induction false} SameWeights(ids: seq<nat>, n: nat, v: nat -> int, w: nat -> int)
    requires forall i :: v(i) == w(i)
    ensures Weigh(ids, v) == Weigh(ids, w) && forall from: nat :: Strided(from, 1, n, v) == Strided(from, 1, n, w)
  {
    WeighSame(ids, v, w);
    forall from: nat
      ensures Strided(from, 1, n, v) == Strided(from, 1, n, w)
    {
      StridedSame(from, n, v, w);
    }
  }

  lemma {:induction false} WeighSame(ids: seq<nat>, v: nat -> int, w: nat -> int)
    requires forall i :: v(i) == w(i)
    ensures Weigh(ids, v) == Weigh(ids, w)
  {
    if ids != [] {
      WeighSame(ids[1..], v, w);
    }
  }

  lemma {:induction false} StridedSame(from: nat, n: nat, v: nat -> int, w: nat -> int)
    requires forall i :: v(i) == w(i)
    ensures Strided(from, 1, n, v) == Strided(from, 1, n, w)
    decreases n
  {
    if n > 0 {
      StridedSame(from + 1, n - 1, v, w);
    }
  }

  // ---------- sums over the tree ----------

  function Pick(vals: seq<int>): (w: nat -> int)
  {
    (i: nat) => if i < |vals| then vals[i] else 0
  }

  lemma {:induction false} StridedAll(vals: seq<int>, from: nat)
    requires from <= |vals|
    ensures Strided(from, 1, |vals| - from, Pick(vals)) == Total(vals[from..])
    decreases |vals| - from
  {
    if from < |vals| {
      StridedAll(vals, from + 1);
      assert vals[from..][1..] == vals[from + 1..];
    }
  }

  /** All processes together hold the total. */
  lemma TreeTotal(d: nat, vals: seq<int>)
    requires |vals| == Pow2(d)
    ensures Weigh(Indices(d, 0, 0), Pick(vals)) == Total(vals)
  {
    SubtreeIndices(d, 0, 0, Pick(vals));
    StridedAll(vals, 0);
    assert vals[0..] == vals;
  }

  // ---------- the forked processes ----------

  function SumBag(bag: seq<nat>): (t: int)
  {
    if bag == [] then 0 else bag[0] + SumBag(bag[1..])
  }

  lemma {:induction false} SumBagSnoc(bag: seq<nat>, x: nat)
    ensures SumBag(bag + [x]) == SumBag(bag) + x
  {
    if bag != [] {
      assert (bag + [x])[1..] == bag[1..] + [x];
      SumBagSnoc(bag[1..], x);
    }
  }

  lemma {:induction false} SumBagDrop(bag: seq<nat>, i: nat)
    requires i < |bag|
    ensures SumBag(bag) == bag[i] + SumBag(bag[..i] + bag[i + 1..])
  {
    var rest := bag[..i] + bag[i + 1..];
    if i > 0 {
      SumBagDrop(bag[1..], i - 1);
      assert rest[0] == bag[0];
      assert rest[1..] == bag[1..][..i - 1] + bag[1..][i - 1 + 1..];
    } else {
      assert rest == bag[1..];
    }
  }

  /** A round splits the subtree between the process and the child it forks. */
  lemma OneRound(d: nat, vals: seq<int>, idx: nat, level: nat)
    requires level < d && idx < Pow2(level)
    ensures idx + Pow2(level) < Pow2(level + 1)
    ensures Weigh(Indices(d, idx, level), Pick(vals))
            == Weigh(Indices(d, idx, level + 1), Pick(vals))
               + Weigh(Indices(d, idx + Pow2(level), level + 1), Pick(vals))
  {
    Doubling(level);
    hide *;
    IndicesSplit(d, idx, level, Pick(vals));
  }

  /** `wait` delivers the statuses of the children in any order. */
  method Reap(statuses: seq<nat>, own: int) returns (sum: int)
    ensures sum == own + SumBag(statuses)
  {
    sum := own;
    var zombies := statuses;
    while zombies != []
      invariant sum + SumBag(zombies) == own + SumBag(statuses)
      decreases |zombies|
    {
      var i :| 0 <= i < |zombies|;
      SumBagDrop(zombies, i);
      sum := sum + zombies[i];
      zombies := zombies[..i] + zombies[i + 1..];
    }
  }

  lemma Mod256(a: int, b: int, c: int, all: int)
    requires (a + (b + c)) % 256 == all % 256
    ensures (a + c % 256 + b) % 256 == all % 256
  {
    var q := c / 256;
    assert c == 256 * q + c % 256;
    assert a + (b + c) == a + c % 256 + b + 256 * q;
  }

  /** A process from round `level` on: forks in every round left, adds its pair, waits, exits. */
  method Process(d: nat, vals: seq<int>, idx: nat, level: nat) returns (status: nat)
    requires level <= d && idx < Pow2(level) && |vals| == Pow2(d)
    ensures status == Status(Weigh(Indices(d, idx, level), Pick(vals)))
    decreases d - level
  {
    hide Indices, Weigh, SumBag, Pow2, Pick;
    var statuses: seq<nat> := [];
    ghost var all := Weigh(Indices(d, idx, level), Pick(vals));
    SumBagNone();
    var i := level;
    while i < d
      invariant level <= i <= d && idx < Pow2(i)
      invariant (SumBag(statuses) + Weigh(Indices(d, idx, i), Pick(vals))) % 256 == all % 256
    {
      OneRound(d, vals, idx, i);
      ghost var mine := Weigh(Indices(d, idx, i + 1), Pick(vals));
      ghost var its := Weigh(Indices(d, idx + Pow2(i), i + 1), Pick(vals));
      var st := Process(d, vals, idx + Pow2(i), i + 1);
      SumBagSnoc(statuses, st);
      Mod256(SumBag(statuses), mine, its, all);
      statuses := statuses + [st];
      i := i + 1;
    }
    LastRound(d, vals, idx);
    var sum := Reap(statuses, vals[idx]);
    status := Status(sum);
  }

  lemma SumBagNone()
    ensures SumBag([]) == 0
  {
  }

  lemma LastRound(d: nat, vals: seq<int>, idx: nat)
    requires idx < |vals|
    ensures Weigh(Indices(d, idx, d), Pick(vals)) == vals[idx]
  {
  }

  /** The value printed at the end, for every order of reaping: the total modulo 256. */
  method ForkSum(d: nat, pairs: seq<(int, int)>) returns (printed: nat)
    requires |pairs| == Pow2(d)
    ensures printed == Total(Sums(pairs)) % 256
  {
    TreeTotal(d, Sums(pairs));
    printed := Process(d, Sums(pairs), 0, 0);
  }

  function Sums(pairs: seq<(int, int)>): (vals: seq<int>)
    ensures |vals| == |pairs|
  {
    seq(|pairs|, i requires 0 <= i < |pairs| => pairs[i].0 + pairs[i].1)
  }

  // ---------- the threads ----------

  /** A thread id slot. A thread can be joined once, and only after it was created. */
  datatype Thread = Absent | Running(sum: int) | Joined

  method Create(tid: array<Thread>, i: nat, num1: int, num2: int)
    requires i < tid.Length && tid[i].Absent?
    modifies tid
    ensures tid[..] == old(tid[..])[i := Running(num1 + num2)]
  {
    tid[i] := Running(num1 + num2);
  }

  method Join(tid: array<Thread>, i: nat) returns (sum: int)
    requires i < tid.Length && tid[i].Running?
    modifies tid
    ensures old(tid[i]) == Running(sum) && tid[..] == old(tid[..])[i := Joined]
  {
    sum := tid[i].sum;
    tid[i] := Joined;
  }

  /** What the threads from `lo` up to `hi` will return, none of them joined yet. */
  ghost predicate AllRunning(tid: seq<Thread>, lo: nat, hi: nat)
  {
    lo <= hi <= |tid| && forall j :: lo <= j < hi ==> tid[j].Running?
  }

  ghost function RunningSum(tid: seq<Thread>, lo: nat, hi: nat): (t: int)
    requires AllRunning(tid, lo, hi)
    decreases hi - lo
  {
    if lo == hi then 0 else tid[lo].sum + RunningSum(tid, lo + 1, hi)
  }

  lemma {:induction false} RunningSumSame(a: seq<Thread>, b: seq<Thread>, lo: nat, hi: nat)
    requires AllRunning(a, lo, hi) && hi <= |b| && forall j :: lo <= j < hi ==> a[j] == b[j]
    ensures AllRunning(b, lo, hi) && RunningSum(b, lo, hi) == RunningSum(a, lo, hi)
    decreases hi - lo
  {
    if lo < hi {
      RunningSumSame(a, b, lo + 1, hi);
    }
  }

  lemma {:induction false} RunningSumLast(tid: seq<Thread>, lo: nat, hi: nat)
    requires AllRunning(tid, lo, hi + 1) && lo <= hi
    ensures RunningSum(tid, lo, hi + 1) == RunningSum(tid, lo, hi) + tid[hi].sum
    decreases hi - lo
  {
    if lo < hi {
      RunningSumLast(tid, lo + 1, hi);
    }
  }

  lemma {:induction false} TotalPrefix(vals: seq<int>, k: nat)
    requires k < |vals|
    ensures Total(vals[..k + 1]) == Total(vals[..k]) + vals[k]
  {
    if k > 0 {
      TotalPrefix(vals[1..], k - 1);
      assert vals[1..][..k - 1] == vals[..k][1..] && vals[1..][..k] == vals[..k + 1][1..];
    }
  }

  /**
   Before node `i` is made: the nodes up to `i` do not exist yet, those up to `2 * i + 1` run and carry
   the total between them, and all others are joined.
   */
  ghost predicate Stage(tid: seq<Thread>, i: nat, total: int)
  {
    && 2 * i + 2 <= |tid|
    && (forall j :: 0 <= j <= i ==> tid[j].Absent?)
    && AllRunning(tid, i + 1, 2 * i + 2) && RunningSum(tid, i + 1, 2 * i + 2) == total
    && (forall j :: 2 * i + 2 <= j < |tid| ==> tid[j].Joined?)
  }

  /** Two threads joined, one created that carries both their sums. */
  lemma CombineKeeps(a: seq<Thread>, i: nat, total: int)
    requires i >= 1 && Stage(a, i, total)
    ensures a[2 * i].Running? && a[2 * i + 1].Running? && a[i].Absent?
    ensures Stage(a[2 * i := Joined][2 * i + 1 := Joined][i := Running(a[2 * i].sum + a[2 * i + 1].sum)], i - 1, total)
  {
    var b := a[2 * i := Joined][2 * i + 1 := Joined][i := Running(a[2 * i].sum + a[2 * i + 1].sum)];
    RunningSumLast(a, i + 1, 2 * i + 1);
    RunningSumLast(a, i + 1, 2 * i);
    RunningSumSame(a, b, i + 1, 2 * i);
  }

  /** One thread per pair, in the upper half of the array. */
  method CreateLeaves(tid: array<Thread>, pairs: seq<(int, int)>)
    requires |pairs| >= 1 && tid.Length == 2 * |pairs| && forall j :: 0 <= j < tid.Length ==> tid[j].Absent?
    modifies tid
    ensures Stage(tid[..], |pairs| - 1, Total(Sums(pairs)))
  {
    var n := |pairs|;
    ghost var vals := Sums(pairs);
    for i := n to 2 * n
      invariant forall j :: 0 <= j < n || i <= j < 2 * n ==> tid[j].Absent?
      invariant AllRunning(tid[..], n, i) && RunningSum(tid[..], n, i) == Total(vals[..i - n])
    {
      ghost var before := tid[..];
      Create(tid, i, pairs[i - n].0, pairs[i - n].1);
      RunningSumSame(before, tid[..], n, i);
      RunningSumLast(tid[..], n, i);
      TotalPrefix(vals, i - n);
    }
    assert vals[..n] == vals;
  }

  /** Every thread is created, joined once after that, and the last join yields the total. */
  method ThreadSum(pairs: seq<(int, int)>) returns (sum: int, threads: seq<Thread>)
    requires |pairs| >= 1
    ensures sum == Total(Sums(pairs))
    ensures |threads| == 2 * |pairs| && forall i :: 1 <= i < |threads| ==> threads[i].Joined?
  {
    var tid := new Thread[2 * |pairs|](_ => Absent);
    CreateLeaves(tid, pairs);
    hide *;
    ghost var total := Total(Sums(pairs));
    var i := |pairs| - 1;
    while i > 0
      invariant 0 <= i < |pairs| && Stage(tid[..], i, total)
    {
      CombineKeeps(tid[..], i, total);
      var num1 := Join(tid, i * 2);
      var num2 := Join(tid, i * 2 + 1);
      Create(tid, i, num1, num2);
      i := i - 1;
    }
    OneLeft(tid[..], total);
    sum := Join(tid, 1);
    threads := tid[..];
  }

  lemma OneLeft(tid: seq<Thread>, total: int)
    requires Stage(tid, 0, total)
    ensures |tid| >= 2 && tid[1] == Running(total) && forall j :: 2 <= j < |tid| ==> tid[j].Joined?
  {
    RunningSumLast(tid, 1, 1);
  }

  /** The two programs agree modulo 256. */
  method Compare(d: nat, pairs: seq<(int, int)>) returns (forked: nat, threaded: int)
    requires |pairs| == Pow2(d)
    ensures threaded == Total(Sums(pairs)) && forked == threaded % 256
  {
    forked := ForkSum(d, pairs);
    var threads;
    threaded, threads := ThreadSum(pairs);
  }
}
