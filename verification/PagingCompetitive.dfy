/**
 FIFO and LRU with `k` frames against OPT with `h <= k` frames: `k - h + 1` times their faults are at most
 `k` times OPT's, up to a constant that is zero for `h == k`.

 The proof weighs the pages FIFO or LRU holds and OPT does not: the newest slot of the queue weighs `k`,
 the next `k - 1`, and so on. A fault of OPT raises the total by at most `k`; a fault of the queue policy
 with all its frames taken lowers it by one for each of the at least `k - h + 1` pages OPT lacks.
 */
module PagingCompetitive {
  import opened Basics
  import opened Paging
  import opened Counting
  import opened Products
  import PagingOptimality

  ghost function Weight(q: seq<int>, opt: set<int>, k: nat): (w: nat)
    requires |q| <= k
    decreases |q|
  {
    if q == [] then 0 else
      (if q[|q| - 1] in opt then 0 else k) + Weight(q[..|q| - 1], opt, k - 1)
  }

  lemma {:induction false} WeightShift(q: seq<int>, opt: set<int>, k: nat)
    requires |q| < k
    ensures Weight(q, opt, k - 1) <= Weight(q, opt, k)
    decreases |q|
  {
    if q != [] {
      WeightShift(q[..|q| - 1], opt, k - 1);
    }
  }

  lemma {:induction false} WeightMonotone(q: seq<int>, opt: set<int>, opt': set<int>, k: nat)
    requires |q| <= k && opt <= opt'
    ensures Weight(q, opt', k) <= Weight(q, opt, k)
    decreases |q|
  {
    if q != [] {
      WeightMonotone(q[..|q| - 1], opt, opt', k - 1);
    }
  }

  /** When OPT gives up one page, the total grows by at most `k`. */
  lemma {:induction false} WeightLose(q: seq<int>, opt: set<int>, y: int, k: nat)
    requires |q| <= k && Distinct(q)
    ensures Weight(q, opt - {y}, k) <= Weight(q, opt, k) + k
    decreases |q|
  {
    if q != [] {
      var n := |q| - 1;
      if q[n] == y {
        assert forall x :: x in q[..n] ==> x != y;
        WeightIgnores(q[..n], opt, y, k - 1);
      } else {
        WeightLose(q[..n], opt, y, k - 1);
      }
    }
  }

  lemma {:induction false} WeightIgnores(q: seq<int>, opt: set<int>, y: int, k: nat)
    requires |q| <= k && y !in q
    ensures Weight(q, opt - {y}, k) == Weight(q, opt, k)
    decreases |q|
  {
    if q != [] {
      WeightIgnores(q[..|q| - 1], opt, y, k - 1);
    }
  }

  /** Taking one page out never raises the total, even with the weights moved down by one. */
  lemma {:induction false} WeightRemove(q: seq<int>, i: nat, opt: set<int>, k: nat)
    requires i < |q| <= k
    ensures Weight(RemoveAt(q, i), opt, k - 1) <= Weight(q, opt, k)
    decreases |q|
  {
    var n := |q| - 1;
    var r := RemoveAt(q, i);
    if i == n {
      assert r == q[..n];
    } else {
      assert r[..n - 1] == RemoveAt(q[..n], i);
      assert r[n - 1] == q[n];
      WeightRemove(q[..n], i, opt, k - 1);
    }
  }

  /** How many pages of the queue OPT lacks. */
  ghost function Lacks(q: seq<int>, opt: set<int>): (n: nat)
  {
    if q == [] then 0 else Lacks(q[..|q| - 1], opt) + if q[|q| - 1] in opt then 0 else 1
  }

  lemma OneMore(a: set<int>, x: int, opt: set<int>)
    requires x !in a
    ensures |a + {x} - opt| == |a - opt| + if x in opt then 0 else 1
  {
    assert a + {x} - opt == if x in opt then a - opt else a - opt + {x};
  }

  lemma {:induction false} LacksCount(q: seq<int>, opt: set<int>)
    requires Distinct(q)
    ensures Lacks(q, opt) == |Elements(q) - opt|
  {
    if q == [] {
      assert Elements(q) - opt == {};
    } else {
      var n := |q| - 1;
      assert q == q[..n] + [q[n]] && q[n] !in q[..n] && Distinct(q[..n]);
      AppendElements(q[..n], q[n]);
      assert q[n] !in Elements(q[..n]);
      hide Elements, Distinct;
      LacksCount(q[..n], opt);
      OneMore(Elements(q[..n]), q[n], opt);
    }
  }

  /** Taking out the oldest page lowers the total by one for every page that OPT lacks. */
  lemma {:induction false} WeightEvict(q: seq<int>, opt: set<int>, k: nat)
    requires 1 <= |q| <= k
    ensures Weight(q[1..], opt, k - 1) + Lacks(q, opt) <= Weight(q, opt, k)
    decreases |q|
  {
    var n := |q| - 1;
    if n > 0 {
      assert q[1..][..n - 1] == q[..n][1..];
      assert q[1..][n - 1] == q[n];
      WeightEvict(q[..n], opt, k - 1);
    } else {
      assert Lacks(q[..0], opt) == 0;
    }
  }

  /** OPT cannot hold more than `h - 1` pages of a queue that lacks one of its own. */
  lemma Pigeonhole(q: seq<int>, opt: set<int>, p: int, h: nat)
    requires Distinct(q) && |opt| <= h && p in opt && p !in q
    ensures Lacks(q, opt) >= |q| - h + 1
  {
    LacksCount(q, opt);
    DistinctSize(q);
    var all := Elements(q);
    assert all == (all - opt) + (all * opt);
    SubsetCount(all * opt, opt - {p});
  }

  /** The invariant tying the two runs: as long as the queue has room, it holds whatever OPT holds. */
  ghost predicate Tied(k: nat, h: nat, q: seq<int>, opt: seq<int>)
  {
    && 1 <= h <= k && |q| <= k && |opt| <= h && Distinct(q) && Distinct(opt)
    && (|q| < k ==> Elements(opt) <= Elements(q))
  }

  lemma TiedNext(pol: Policy, k: nat, h: nat, q: seq<int>, opt: seq<int>, p: int, future: seq<int>)
    requires Tied(k, h, q, opt)
    ensures Tied(k, h, Next(pol, k, q, p, future), Next(Opt, h, opt, p, future))
  {
    NextElements(pol, k, q, p, future);
    NextElements(Opt, h, opt, p, future);
    assert |q| == k ==> |Next(pol, k, q, p, future)| == k;
  }

  /** OPT's side of a reference. */
  lemma OptSide(k: nat, h: nat, q: seq<int>, opt: seq<int>, p: int, future: seq<int>)
    requires Tied(k, h, q, opt)
    ensures var opt' := Next(Opt, h, opt, p, future);
            && Weight(q, Elements(opt'), k) <= Weight(q, Elements(opt), k)
                                               + (if p !in opt && |opt| == h then k else 0)
            && p in opt' && |Elements(opt')| <= h
  {
    var opt' := Next(Opt, h, opt, p, future);
    NextElements(Opt, h, opt, p, future);
    DistinctSize(opt');
    assert p in Elements(opt');
    if p !in opt && |opt| == h {
      var y := opt[Victim(Opt, opt, future)];
      WeightLose(q, Elements(opt), y, k);
      WeightMonotone(q, Elements(opt) - {y}, Elements(opt'), k);
    } else {
      WeightMonotone(q, Elements(opt), Elements(opt'), k);
    }
  }

  /** The queue policy's side of a reference, OPT already holding `p`. */
  lemma QueueSide(pol: Policy, k: nat, h: nat, q: seq<int>, opt: set<int>, p: int, future: seq<int>)
    requires 1 <= h <= k && |q| <= k && Distinct(q) && p in opt && |opt| <= h && !pol.Opt?
    ensures Weight(Next(pol, k, q, p, future), opt, k) + (if p !in q && |q| == k then k - h + 1 else 0)
            <= Weight(q, opt, k)
  {
    var q' := Next(pol, k, q, p, future);
    if p in q {
      if pol.Lru? {
        WeightRemove(q, IndexOf(q, p), opt, k);
        assert q'[..|q'| - 1] == RemoveAt(q, IndexOf(q, p));
      }
    } else if |q| == k {
      Pigeonhole(q, opt, p, h);
      WeightEvict(q, opt, k);
      assert q'[..|q'| - 1] == RemoveAt(q, 0) == q[1..];
    } else {
      WeightShift(q, opt, k);
      assert q'[..|q'| - 1] == q;
    }
  }

  /** A miss of the queue policy while it has room is a miss of OPT, which holds no more pages. */
  lemma RoomMiss(k: nat, h: nat, q: seq<int>, opt: seq<int>, p: int)
    requires Tied(k, h, q, opt) && |q| < k && p !in q
    ensures p !in opt && |opt| <= |q|
  {
    assert p in opt ==> p in Elements(opt);
    DistinctSize(q);
    DistinctSize(opt);
    SubsetCount(Elements(opt), Elements(q));
  }

  /** Faults for which the queue policy need not pay: those that fill its frames beyond the first `h`. */
  function Allowance(k: nat, h: nat, n: nat): (a: int)
  {
    if n < h then k - h else k - n
  }

  lemma NextLength(pol: Policy, k: nat, q: seq<int>, p: int, future: seq<int>)
    requires 1 <= k && |q| <= k
    ensures |Next(pol, k, q, p, future)| == if p in q || |q| == k then |q| else |q| + 1
  {
  }

  /** One reference: what the queue policy pays for its fault plus the change of weight is paid by OPT's fault. */
  lemma CompetitiveStep(pol: Policy, k: nat, h: nat, q: seq<int>, opt: seq<int>, p: int, future: seq<int>)
    requires Tied(k, h, q, opt) && !pol.Opt?
    ensures var q', opt' := Next(pol, k, q, p, future), Next(Opt, h, opt, p, future);
            var paid := (if p in q then 0 else 1) + Allowance(k, h, |q'|) - Allowance(k, h, |q|);
            && (paid == 0 || paid == 1)
            && (if paid == 1 then k - h + 1 else 0) + Weight(q', Elements(opt'), k)
               <= (if p in opt then 0 else k) + Weight(q, Elements(opt), k)
  {
    OptSide(k, h, q, opt, p, future);
    QueueSide(pol, k, h, q, Elements(Next(Opt, h, opt, p, future)), p, future);
    NextLength(pol, k, q, p, future);
    if p !in q && |q| < k {
      RoomMiss(k, h, q, opt, p);
    }
    hide Next, Weight;
  }

  lemma {:induction false} CompetitiveFrom(pol: Policy, k: nat, h: nat, q: seq<int>, opt: seq<int>, s: seq<int>)
    requires Tied(k, h, q, opt) && !pol.Opt?
    ensures Times(Faults(pol, k, q, s), k - h + 1)
            <= Times(Faults(Opt, h, opt, s), k) + Weight(q, Elements(opt), k) + Times(Allowance(k, h, |q|), k - h + 1)
    decreases s
  {
    hide Next, Times, Weight;
    var c := k - h + 1;
    Distribute(Allowance(k, h, |q|), 0, c);
    if s == [] {
      Distribute(0, 0, k);
    } else {
      var p, future := s[0], s[1..];
      var q', opt' := Next(pol, k, q, p, future), Next(Opt, h, opt, p, future);
      TiedNext(pol, k, h, q, opt, p, future);
      CompetitiveStep(pol, k, h, q, opt, p, future);
      CompetitiveFrom(pol, k, h, q', opt', future);
      var miss, missOpt := if p in q then 0 else 1, if p in opt then 0 else 1;
      var a, a' := Allowance(k, h, |q|), Allowance(k, h, |q'|);
      hide Faults, Allowance, Tied;
      Distribute(miss, Faults(pol, k, q', future), c);
      Distribute(missOpt, Faults(Opt, h, opt', future), k);
      Distribute(miss, a', c);
      Distribute(a, miss + a' - a, c);
      FaultsHead(pol, k, q, s);
      FaultsHead(Opt, h, opt, s);
    }
  }

  lemma TiedStart(k: nat, h: nat)
    requires 1 <= h <= k
    ensures Tied(k, h, [], []) && Weight([], Elements([]), k) == 0 && Allowance(k, h, 0) == k - h
  {
  }

  /** FIFO and LRU with `k` frames against OPT with `h`. */
  lemma CompetitiveWithFewer(pol: Policy, k: nat, h: nat, s: seq<int>)
    requires 1 <= h <= k && !pol.Opt?
    ensures (k - h + 1) * Faults(pol, k, [], s) <= k * Faults(Opt, h, [], s) + (k - h) * (k - h + 1)
  {
    TiedStart(k, h);
    hide *;
    CompetitiveFrom(pol, k, h, [], [], s);
    TimesIs(Faults(pol, k, [], s), k - h + 1);
    TimesIs(Faults(Opt, h, [], s), k);
    TimesIs(k - h, k - h + 1);
  }

  /** In particular they are `k`-competitive against OPT. */
  lemma Competitive(pol: Policy, k: nat, s: seq<int>)
    requires 1 <= k && !pol.Opt?
    ensures Faults(pol, k, [], s) <= k * Faults(Opt, k, [], s)
  {
    hide Faults;
    CompetitiveWithFewer(pol, k, k, s);
  }

  lemma ScaleUp(k: nat, a: int, b: int)
    requires a <= b
    ensures k * a <= k * b
  {
    Scale(a, b, k);
    TimesIs(a, k);
    TimesIs(b, k);
  }

  /** The same bounds against every policy with `h` frames whatsoever. */
  lemma CompetitiveAgainstAll(pol: Policy, k: nat, h: nat, s: seq<int>, frames: seq<set<int>>)
    requires 1 <= h <= k && !pol.Opt? && Serves(h, s, frames)
    ensures (k - h + 1) * Faults(pol, k, [], s) <= k * Loads({}, frames) + (k - h) * (k - h + 1)
  {
    hide Faults, Loads, Serves;
    CompetitiveWithFewer(pol, k, h, s);
    PagingOptimality.OptIsOptimal(h, s, frames);
    ScaleUp(k, Faults(Opt, h, [], s), Loads({}, frames));
  }
}
