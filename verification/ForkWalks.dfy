/**
 What forking does to walks over the process tree. A walk that always descends visits the tasks below its start in
 preorder; a new process comes right behind the other children of its parent and what is below them, in the
 walks from its parent's group and from above, and a new thread changes no walk at all.
 */
module ForkWalks {
  import opened Basics
  import opened ProcessTree
  import opened ProcessVisits

  // ---------- preorder ----------

  /** The given children of a group, each followed by everything below it. */
  ghost function Pre(ts: Tasks, rank: seq<nat>, l: nat, kids: seq<nat>): (order: seq<nat>)
    requires WellFormed(ts, rank) && l < |rank| && AllKids(ts, rank, l, kids)
    decreases if l < |rank| then rank[l] else 0, |kids|
  {
    if kids == [] then [] else
      var k := kids[0];
      assert KidOf(ts, rank, l, k);
      assert AllKids(ts, rank, l, kids[1..]) by {
        hide KidOf;
      }
      [k] + Pre(ts, rank, k, Kids(ts, rank, k)) + Pre(ts, rank, l, kids[1..])
  }

  /** Everything below a group, in preorder. */
  ghost function Below(ts: Tasks, rank: seq<nat>, l: nat): (order: seq<nat>)
    requires WellFormed(ts, rank) && l < |rank|
  {
    Pre(ts, rank, l, Kids(ts, rank, l))
  }

  lemma PreCons(ts: Tasks, rank: seq<nat>, l: nat, k: nat, kids: seq<nat>)
    requires WellFormed(ts, rank) && l < |rank| && KidOf(ts, rank, l, k) && AllKids(ts, rank, l, kids)
    ensures k < |rank| && rank[k] < rank[l] && AllKids(ts, rank, l, [k] + kids)
    ensures Pre(ts, rank, l, [k] + kids) == [k] + Below(ts, rank, k) + Pre(ts, rank, l, kids)
  {
    assert ([k] + kids)[1..] == kids;
    hide WellFormed, Kids;
  }

  lemma KidsSplit(ts: Tasks, rank: seq<nat>, l: nat, kids: seq<nat>)
    requires Sized(ts, rank) && l < |rank| && AllKids(ts, rank, l, kids) && kids != []
    ensures KidOf(ts, rank, l, kids[0]) && AllKids(ts, rank, l, kids[1..]) && kids == [kids[0]] + kids[1..]
  {
    hide KidOf;
  }

  lemma KidsConcat(ts: Tasks, rank: seq<nat>, l: nat, a: seq<nat>, b: seq<nat>)
    requires Sized(ts, rank) && l < |rank|
    ensures AllKids(ts, rank, l, a + b) <==> AllKids(ts, rank, l, a) && AllKids(ts, rank, l, b)
  {
    hide KidOf;
    if AllKids(ts, rank, l, a + b) {
      assert forall i :: 0 <= i < |a| ==> (a + b)[i] == a[i];
      assert forall i :: 0 <= i < |b| ==> (a + b)[|a| + i] == b[i];
    }
  }

  lemma IsSized(ts: Tasks, rank: seq<nat>)
    requires WellFormed(ts, rank)
    ensures Sized(ts, rank)
  {
  }

  lemma PreNone(ts: Tasks, rank: seq<nat>, l: nat)
    requires WellFormed(ts, rank) && l < |rank|
    ensures AllKids(ts, rank, l, []) && Pre(ts, rank, l, []) == []
  {
  }

  lemma {:induction false} PreConcat(ts: Tasks, rank: seq<nat>, l: nat, a: seq<nat>, b: seq<nat>)
    requires WellFormed(ts, rank) && l < |rank| && AllKids(ts, rank, l, a) && AllKids(ts, rank, l, b)
    ensures AllKids(ts, rank, l, a + b)
    ensures Pre(ts, rank, l, a + b) == Pre(ts, rank, l, a) + Pre(ts, rank, l, b)
    decreases |a|
  {
    hide *;
    IsSized(ts, rank);
    KidsConcat(ts, rank, l, a, b);
    if a == [] {
      PreNone(ts, rank, l);
      assert a + b == b;
    } else {
      KidsSplit(ts, rank, l, a);
      PreConcat(ts, rank, l, a[1..], b);
      assert a + b == [a[0]] + (a[1..] + b);
      PreCons(ts, rank, l, a[0], a[1..]);
      PreCons(ts, rank, l, a[0], a[1..] + b);
    }
  }

  /** A walk whose visitor always descends makes its calls in preorder, to the end. */
  lemma {:induction false} WalkIsPre<D(!new)>(ts: Tasks, rank: seq<nat>, l: nat, kids: seq<nat>,
                                              visit: (nat, D) -> (int, D), d: D, log: seq<nat>)
    requires WellFormed(ts, rank) && l < |rank| && AllKids(ts, rank, l, kids) && Low(rank, rank[l], kids)
    requires Descends(visit)
    ensures var r := Walk(ts, rank, rank[l], kids, Recording(visit), (d, log));
            !r.stopped && r.data.1 == log + Pre(ts, rank, l, kids)
    decreases rank[l], |kids|
  {
    hide *;
    IsSized(ts, rank);
    if kids == [] {
      PreNone(ts, rank, l);
      WalkNone(ts, rank, rank[l], Recording(visit), (d, log));
    } else {
      KidsSplit(ts, rank, l, kids);
      LowSplit(ts, rank, l, kids);
      RecordedStep(ts, rank, l, kids, visit, d, log);
      var k, rest := kids[0], kids[1..];
      Descending(visit, k, d);
      var d1 := visit(k, d).1;
      WalkIsPre(ts, rank, k, Kids(ts, rank, k), visit, d1, log + [k]);
      var r := Walk(ts, rank, rank[k], Kids(ts, rank, k), Recording(visit), (d1, log + [k]));
      WalkIsPre(ts, rank, l, rest, visit, r.data.0, r.data.1);
      PreCons(ts, rank, l, k, rest);
      BelowIs(ts, rank, k);
      Concat(log, k, Below(ts, rank, k), Pre(ts, rank, l, rest));
    }
  }

  lemma BelowIs(ts: Tasks, rank: seq<nat>, k: nat)
    requires WellFormed(ts, rank) && k < |rank|
    ensures AllKids(ts, rank, k, Kids(ts, rank, k)) && Low(rank, rank[k], Kids(ts, rank, k))
    ensures Below(ts, rank, k) == Pre(ts, rank, k, Kids(ts, rank, k))
  {
  }

  lemma WalkNone<D>(ts: Tasks, rank: seq<nat>, h: nat, visit: (nat, D) -> (int, D), d: D)
    requires WellFormed(ts, rank) && Low(rank, h, [])
    ensures Walk(ts, rank, h, [], visit, d) == Outcome(false, d)
  {
  }

  lemma Descending<D(!new)>(visit: (nat, D) -> (int, D), k: nat, d: D)
    requires Descends(visit)
    ensures visit(k, d).0 > 0
  {
  }

  lemma LowSplit(ts: Tasks, rank: seq<nat>, l: nat, kids: seq<nat>)
    requires WellFormed(ts, rank) && l < |rank| && Low(rank, rank[l], kids) && kids != []
    ensures kids[0] < |rank| && rank[kids[0]] < rank[l] && Low(rank, rank[l], kids[1..])
    ensures Low(rank, rank[kids[0]], Kids(ts, rank, kids[0])) && AllKids(ts, rank, kids[0], Kids(ts, rank, kids[0]))
  {
    hide WellFormed, KidOf;
    KidsLow(ts, rank, kids[0]);
  }

  /** The loop with a visitor that always descends lists everything below the group of `start` in preorder. */
  method ListBelow(ts: Tasks, ghost rank: seq<nat>, start: nat) returns (log: seq<nat>)
    requires WellFormed(ts, rank) && start < |rank|
    ensures ts.leader[start] < |rank| && log == Below(ts, rank, ts.leader[start])
  {
    var visit := (k: nat, n: nat) => (1, n);
    assert Descends(visit);
    hide *;
    var d, stopped := WalkProcessTree(ts, rank, start, Recording(visit), (0, []));
    ghost var top := ts.leader[start];
    BelowIs(ts, rank, top);
    WalkIsPre(ts, rank, top, Kids(ts, rank, top), visit, 0, []);
    log := d.1;
    assert [] + Below(ts, rank, top) == Below(ts, rank, top);
  }

  // ---------- a tree that has grown by one task ----------

  /** One more task; of the old groups only `g` may have other children than before. */
  ghost predicate Grown(ts: Tasks, rank: seq<nat>, ts': Tasks, rank': seq<nat>, g: nat)
  {
    && WellFormed(ts, rank) && WellFormed(ts', rank') && |rank'| == |rank| + 1 && g < |rank|
    && (forall l, k :: 0 <= l < |rank| && KidOf(ts, rank, l, k) ==> KidOf(ts', rank', l, k))
    && (forall l :: 0 <= l < |rank| && l != g ==> Kids(ts', rank', l) == Kids(ts, rank, l))
  }

  lemma StillKids(ts: Tasks, rank: seq<nat>, ts': Tasks, rank': seq<nat>, g: nat, l: nat, kids: seq<nat>)
    requires Grown(ts, rank, ts', rank', g) && l < |rank| && AllKids(ts, rank, l, kids)
    ensures AllKids(ts', rank', l, kids)
  {
    assert Sized(ts, rank) && Sized(ts', rank');
    hide WellFormed, KidOf, Kids;
  }

  /** `after` is `before` with one part of it exchanged for another. */
  ghost predicate Replaced(before: seq<nat>, after: seq<nat>, part: seq<nat>, part': seq<nat>)
  {
    exists x, y :: Spliced(before, x, part, y) && Spliced(after, x, part', y)
  }

  ghost predicate Spliced(whole: seq<nat>, x: seq<nat>, part: seq<nat>, y: seq<nat>)
  {
    whole == x + part + y
  }

  lemma ReplacedHere(k: nat, part: seq<nat>, part': seq<nat>, after: seq<nat>)
    ensures Replaced([k] + part + after, [k] + part' + after, part, part')
  {
    assert Spliced([k] + part + after, [k], part, after) && Spliced([k] + part' + after, [k], part', after);
  }

  lemma ReplacedBelow(k: nat, a: seq<nat>, a': seq<nat>, b: seq<nat>, part: seq<nat>, part': seq<nat>)
    requires Replaced(a, a', part, part')
    ensures Replaced([k] + a + b, [k] + a' + b, part, part')
  {
    var x, y :| Spliced(a, x, part, y) && Spliced(a', x, part', y);
    assert [k] + (x + part + y) + b == ([k] + x) + part + (y + b);
    assert [k] + (x + part' + y) + b == ([k] + x) + part' + (y + b);
    assert Spliced([k] + a + b, [k] + x, part, y + b) && Spliced([k] + a' + b, [k] + x, part', y + b);
  }

  lemma ReplacedAfter(k: nat, a: seq<nat>, b: seq<nat>, b': seq<nat>, part: seq<nat>, part': seq<nat>)
    requires Replaced(b, b', part, part')
    ensures Replaced([k] + a + b, [k] + a + b', part, part')
  {
    var x, y :| Spliced(b, x, part, y) && Spliced(b', x, part', y);
    assert [k] + a + (x + part + y) == ([k] + a + x) + part + y;
    assert [k] + a + (x + part' + y) == ([k] + a + x) + part' + y;
    assert Spliced([k] + a + b, [k] + a + x, part, y) && Spliced([k] + a + b', [k] + a + x, part', y);
  }

  /** Where the grown group is not among those visited nothing changes; else what is below it is exchanged. */
  lemma {:induction false} PreGrown(ts: Tasks, rank: seq<nat>, ts': Tasks, rank': seq<nat>, g: nat,
                                    l: nat, kids: seq<nat>)
    requires Grown(ts, rank, ts', rank', g) && WellFormed(ts, rank) && WellFormed(ts', rank') && g < |rank| < |rank'|
    requires l < |rank| && AllKids(ts, rank, l, kids) && AllKids(ts', rank', l, kids) && Distinct(kids)
    ensures if Covers(ts, rank, kids, g)
            then Replaced(Pre(ts, rank, l, kids), Pre(ts', rank', l, kids), Below(ts, rank, g), Below(ts', rank', g))
            else Pre(ts', rank', l, kids) == Pre(ts, rank, l, kids)
    decreases rank[l], |kids|
  {
    hide *;
    IsSized(ts, rank);
    IsSized(ts', rank');
    if kids == [] {
      PreNone(ts, rank, l);
      PreNone(ts', rank', l);
      NothingCovered(ts, rank, g);
    } else {
      var k, rest := kids[0], kids[1..];
      KidsSplit(ts, rank, l, kids);
      KidsSplit(ts', rank', l, kids);
      PreCons(ts, rank, l, k, rest);
      PreCons(ts', rank', l, k, rest);
      RestDistinct(kids);
      PreGrown(ts, rank, ts', rank', g, l, rest);
      CoversCons(ts, rank, k, rest, g);
      var a, a' := Below(ts, rank, k), Below(ts', rank', k);
      var b, b' := Pre(ts, rank, l, rest), Pre(ts', rank', l, rest);
      if k == g {
        UnderSelf(ts, rank, k);
        HeadApart(ts, rank, l, kids, g);
        ReplacedHere(k, a, a', b);
      } else {
        SameKids(ts, rank, ts', rank', g, k);
        PreGrown(ts, rank, ts', rank', g, k, Kids(ts, rank, k));
        CoversKids(ts, rank, k, g);
        if Under(ts, rank, k, g) {
          HeadApart(ts, rank, l, kids, g);
          ReplacedBelow(k, a, a', b, Below(ts, rank, g), Below(ts', rank', g));
        } else if Covers(ts, rank, rest, g) {
          ReplacedAfter(k, a, b, b', Below(ts, rank, g), Below(ts', rank', g));
        }
      }
    }
  }

  lemma RestDistinct(kids: seq<nat>)
    requires Distinct(kids) && kids != []
    ensures Distinct(kids[1..])
  {
  }

  lemma UnderSelf(ts: Tasks, rank: seq<nat>, k: nat)
    requires WellFormed(ts, rank) && k < |rank|
    ensures Under(ts, rank, k, k)
  {
  }

  lemma SameKids(ts: Tasks, rank: seq<nat>, ts': Tasks, rank': seq<nat>, g: nat, k: nat)
    requires Grown(ts, rank, ts', rank', g) && WellFormed(ts, rank) && WellFormed(ts', rank') && k < |rank| < |rank'|
    requires k != g
    ensures AllKids(ts, rank, k, Kids(ts, rank, k)) && AllKids(ts', rank', k, Kids(ts, rank, k))
    ensures Distinct(Kids(ts, rank, k))
    ensures Below(ts, rank, k) == Pre(ts, rank, k, Kids(ts, rank, k))
    ensures Below(ts', rank', k) == Pre(ts', rank', k, Kids(ts, rank, k))
  {
    assert Kids(ts', rank', k) == Kids(ts, rank, k);
    KidsDistinct(ts, rank, k, 0);
    hide Pre;
  }

  /** The walk from `top` after one more task. */
  lemma BelowGrown(ts: Tasks, rank: seq<nat>, ts': Tasks, rank': seq<nat>, g: nat, top: nat)
    requires Grown(ts, rank, ts', rank', g) && WellFormed(ts, rank) && WellFormed(ts', rank') && g < |rank| < |rank'|
    requires top < |rank|
    ensures if Under(ts, rank, top, g)
            then Replaced(Below(ts, rank, top), Below(ts', rank', top), Below(ts, rank, g), Below(ts', rank', g))
            else Below(ts', rank', top) == Below(ts, rank, top)
  {
    hide *;
    if top == g {
      UnderSelf(ts, rank, g);
      ReplacedAll(Below(ts, rank, g), Below(ts', rank', g));
    } else {
      SameKids(ts, rank, ts', rank', g, top);
      PreGrown(ts, rank, ts', rank', g, top, Kids(ts, rank, top));
      CoversKids(ts, rank, top, g);
    }
  }

  lemma ReplacedAll(part: seq<nat>, part': seq<nat>)
    ensures Replaced(part, part', part, part')
  {
    assert [] + part + [] == part && [] + part' + [] == part';
    assert Spliced(part, [], part, []) && Spliced(part', [], part', []);
  }

  // ---------- the lists of children after a fork ----------

  /** The children of the threads of a group before the `t`-th. */
  ghost function KidsTo(ts: Tasks, rank: seq<nat>, l: nat, t: nat): (kids: seq<nat>)
    requires WellFormed(ts, rank) && l < |rank| && t <= |ts.threads[l]|
    ensures AllKids(ts, rank, l, kids)
  {
    if t == 0 then [] else
      ThreadKids(ts, rank, l, t - 1);
      KidsTo(ts, rank, l, t - 1) + ts.children[ts.threads[l][t - 1]]
  }

  lemma {:induction false} KidsParts(ts: Tasks, rank: seq<nat>, l: nat, t: nat)
    requires WellFormed(ts, rank) && l < |rank| && t <= |ts.threads[l]|
    ensures Kids(ts, rank, l) == KidsTo(ts, rank, l, t) + KidsFrom(ts, rank, l, t)
  {
    if t > 0 {
      KidsParts(ts, rank, l, t - 1);
      assert ThreadOk(ts, rank, l, t - 1);
      hide WellFormed;
    }
  }

  /** The children of a group, by the thread `p` of it. */
  lemma KidsAround(ts: Tasks, rank: seq<nat>, p: nat)
    requires WellFormed(ts, rank) && p < |rank|
    ensures Sized(ts, rank) && ts.leader[p] < |rank| && ts.slot[p] < |ts.threads[ts.leader[p]]|
    ensures AllKids(ts, rank, ts.leader[p], ts.children[p])
    ensures var g, t := ts.leader[p], ts.slot[p];
            Kids(ts, rank, g) == KidsTo(ts, rank, g, t) + ts.children[p] + KidsFrom(ts, rank, g, t + 1)
  {
    assert TaskOk(ts, rank, p);
    var g, t := ts.leader[p], ts.slot[p];
    KidsParts(ts, rank, g, t);
    ThreadKids(ts, rank, g, t);
    hide WellFormed, KidsTo, Kids, AllKids;
  }

  /** Task `n`, a process of its own, has become the last child of `p`. */
  ghost predicate NewChild(ts: Tasks, rank: seq<nat>, ts': Tasks, rank': seq<nat>, p: nat)
  {
    && WellFormed(ts, rank) && WellFormed(ts', rank') && p < |rank| && rank' == RankBelow(rank)
    && ts'.leader == ts.leader + [|rank|] && ts'.parent == ts.parent + [p] && ts'.slot == ts.slot + [0]
    && ts'.sibling == ts.sibling + [|ts.children[p]|] && ts'.threads == ts.threads + [[|rank|]]
    && ts'.children == ts.children[p := ts.children[p] + [|rank|]] + [[]]
  }

  lemma {:induction false} KidsFromSame(ts: Tasks, rank: seq<nat>, ts': Tasks, rank': seq<nat>, p: nat, l: nat, t: nat)
    requires NewChild(ts, rank, ts', rank', p) && l < |rank| && (l != ts.leader[p] || t > ts.slot[p])
    ensures KidsFrom(ts', rank', l, t) == KidsFrom(ts, rank, l, t)
    decreases |ts.threads[l]| - t
  {
    if t < |ts.threads[l]| {
      assert ThreadOk(ts, rank, l, t);
      KidsFromSame(ts, rank, ts', rank', p, l, t + 1);
      hide WellFormed;
    }
  }

  lemma {:induction false} KidsToSame(ts: Tasks, rank: seq<nat>, ts': Tasks, rank': seq<nat>, p: nat, t: nat)
    requires NewChild(ts, rank, ts', rank', p) && ts.leader[p] < |rank| && t <= ts.slot[p]
    requires ts.slot[p] < |ts.threads[ts.leader[p]]|
    ensures KidsTo(ts', rank', ts.leader[p], t) == KidsTo(ts, rank, ts.leader[p], t)
  {
    if t > 0 {
      assert ThreadOk(ts, rank, ts.leader[p], t - 1);
      KidsToSame(ts, rank, ts', rank', p, t - 1);
      hide WellFormed;
    }
  }

  lemma StillKid(ts: Tasks, rank: seq<nat>, ts': Tasks, rank': seq<nat>, p: nat, l: nat, k: nat)
    requires NewChild(ts, rank, ts', rank', p) && l < |rank| && KidOf(ts, rank, l, k)
    ensures KidOf(ts', rank', l, k)
  {
    assert Sized(ts, rank) && Sized(ts', rank');
    hide WellFormed;
  }

  lemma NewChildGrown(ts: Tasks, rank: seq<nat>, ts': Tasks, rank': seq<nat>, p: nat)
    requires NewChild(ts, rank, ts', rank', p)
    ensures ts.leader[p] < |rank| && Grown(ts, rank, ts', rank', ts.leader[p])
  {
    assert TaskOk(ts, rank, p);
    var g := ts.leader[p];
    forall l, k | 0 <= l < |rank| && KidOf(ts, rank, l, k)
      ensures KidOf(ts', rank', l, k)
    {
      StillKid(ts, rank, ts', rank', p, l, k);
    }
    forall l | 0 <= l < |rank| && l != g
      ensures Kids(ts', rank', l) == Kids(ts, rank, l)
    {
      KidsFromSame(ts, rank, ts', rank', p, l, 0);
    }
  }

  lemma NewChildFacts(ts: Tasks, rank: seq<nat>, ts': Tasks, rank': seq<nat>, p: nat)
    requires NewChild(ts, rank, ts', rank', p)
    ensures WellFormed(ts, rank) && WellFormed(ts', rank') && Sized(ts, rank) && Sized(ts', rank')
    ensures |rank'| == |rank| + 1 && |ts.leader| == |ts.slot| == |ts.threads| == |ts.children| == |rank|
    ensures |ts'.leader| == |ts'.slot| == |ts'.children| == |rank'|
    ensures p < |rank| && ts.leader[p] < |rank| && ts.slot[p] < |ts.threads[ts.leader[p]]|
    ensures ts'.leader[p] == ts.leader[p] && ts'.slot[p] == ts.slot[p] && ts'.children[p] == ts.children[p] + [|rank|]
  {
    assert TaskOk(ts, rank, p);
  }

  /** The children of the parent's group gain the new task, behind the other children of `p`. */
  lemma KidsGain(ts: Tasks, rank: seq<nat>, ts': Tasks, rank': seq<nat>, p: nat, g: nat, t: nat)
    requires NewChild(ts, rank, ts', rank', p) && WellFormed(ts, rank) && WellFormed(ts', rank')
    requires Sized(ts, rank) && Sized(ts', rank')
    requires p < |rank| < |rank'| && g == ts.leader[p] < |rank| && t == ts.slot[p] < |ts.threads[g]|
    ensures Kids(ts', rank', g)
            == KidsTo(ts, rank, g, t) + (ts.children[p] + [|rank|]) + KidsFrom(ts, rank, g, t + 1)
    ensures AllKids(ts', rank', g, ts.children[p] + [|rank|])
  {
    hide *;
    NewChildFacts(ts, rank, ts', rank', p);
    KidsAround(ts', rank', p);
    KidsToSame(ts, rank, ts', rank', p, t);
    KidsFromSame(ts, rank, ts', rank', p, g, t + 1);
  }

  lemma NothingBelow(ts: Tasks, rank: seq<nat>, ts': Tasks, rank': seq<nat>, p: nat)
    requires NewChild(ts, rank, ts', rank', p)
    ensures Below(ts', rank', |rank|) == []
  {
    var n := |rank|;
    assert ts'.threads[n] == [n] && ts'.children[n] == [];
    assert KidsFrom(ts', rank', n, 1) == [];
    assert Kids(ts', rank', n) == [];
  }

  // ---------- what a fork does to walks ----------

  /** The three parts of a walk from the group of `p`: before the children of `p`, these, and after. */
  ghost function Earlier(ts: Tasks, rank: seq<nat>, p: nat): (order: seq<nat>)
    requires WellFormed(ts, rank) && p < |rank|
  {
    assert TaskOk(ts, rank, p);
    Pre(ts, rank, ts.leader[p], KidsTo(ts, rank, ts.leader[p], ts.slot[p]))
  }

  ghost function Own(ts: Tasks, rank: seq<nat>, p: nat): (order: seq<nat>)
    requires WellFormed(ts, rank) && p < |rank|
  {
    KidsAround(ts, rank, p);
    Pre(ts, rank, ts.leader[p], ts.children[p])
  }

  ghost function Later(ts: Tasks, rank: seq<nat>, p: nat): (order: seq<nat>)
    requires WellFormed(ts, rank) && p < |rank|
  {
    assert TaskOk(ts, rank, p);
    Pre(ts, rank, ts.leader[p], KidsFrom(ts, rank, ts.leader[p], ts.slot[p] + 1))
  }

  lemma BelowParts(ts: Tasks, rank: seq<nat>, p: nat)
    requires WellFormed(ts, rank) && p < |rank|
    ensures ts.leader[p] < |rank|
    ensures Below(ts, rank, ts.leader[p]) == Earlier(ts, rank, p) + Own(ts, rank, p) + Later(ts, rank, p)
  {
    IsSized(ts, rank);
    assert |ts.leader| == |ts.slot| == |ts.threads| == |ts.children| == |rank|;
    hide *;
    KidsAround(ts, rank, p);
    PartsAre(ts, rank, p);
    var g, t := ts.leader[p], ts.slot[p];
    BelowIs(ts, rank, g);
    PreConcat(ts, rank, g, KidsTo(ts, rank, g, t), ts.children[p]);
    PreConcat(ts, rank, g, KidsTo(ts, rank, g, t) + ts.children[p], KidsFrom(ts, rank, g, t + 1));
  }

  /** The children of a group, or some of them, do not have the group below them. */
  lemma PartSame(ts: Tasks, rank: seq<nat>, ts': Tasks, rank': seq<nat>, p: nat, kids: seq<nat>)
    requires NewChild(ts, rank, ts', rank', p) && ts.leader[p] < |rank| && AllKids(ts, rank, ts.leader[p], kids)
    requires Distinct(kids)
    ensures WellFormed(ts', rank') && |rank'| == |rank| + 1 && AllKids(ts', rank', ts.leader[p], kids)
    ensures Pre(ts', rank', ts.leader[p], kids) == Pre(ts, rank, ts.leader[p], kids)
  {
    NewChildGrown(ts, rank, ts', rank', p);
    var g := ts.leader[p];
    StillKids(ts, rank, ts', rank', g, g, kids);
    hide Pre, Grown, AllKids, KidOf, WellFormed;
    NotOverItself(ts, rank, g, kids);
    PreGrown(ts, rank, ts', rank', g, g, kids);
  }

  lemma NotOverItself(ts: Tasks, rank: seq<nat>, g: nat, kids: seq<nat>)
    requires WellFormed(ts, rank) && g < |rank| && AllKids(ts, rank, g, kids)
    ensures !Covers(ts, rank, kids, g)
  {
    assert Sized(ts, rank);
    hide WellFormed;
    forall i | 0 <= i < |kids| && kids[i] < |rank|
      ensures !Under(ts, rank, kids[i], g)
    {
      assert KidOf(ts, rank, g, kids[i]);
    }
  }

  lemma PartsDistinct(ts: Tasks, rank: seq<nat>, p: nat)
    requires WellFormed(ts, rank) && p < |rank|
    ensures ts.leader[p] < |rank| && ts.slot[p] < |ts.threads[ts.leader[p]]|
    ensures Distinct(KidsTo(ts, rank, ts.leader[p], ts.slot[p])) && Distinct(ts.children[p])
    ensures Distinct(KidsFrom(ts, rank, ts.leader[p], ts.slot[p] + 1))
  {
    KidsAround(ts, rank, p);
    var g, t := ts.leader[p], ts.slot[p];
    KidsDistinctOf(ts, rank, g);
    hide WellFormed, KidsTo, KidsFrom, AllKids, Kids, Distinct;
    DistinctParts(KidsTo(ts, rank, g, t), ts.children[p], KidsFrom(ts, rank, g, t + 1));
  }

  lemma DistinctParts(a: seq<nat>, b: seq<nat>, c: seq<nat>)
    requires Distinct(a + b + c)
    ensures Distinct(a) && Distinct(b) && Distinct(c)
  {
    var s := a + b + c;
    assert forall i :: 0 <= i < |a| ==> s[i] == a[i];
    assert forall i :: 0 <= i < |b| ==> s[|a| + i] == b[i];
    assert forall i :: 0 <= i < |c| ==> s[|a| + |b| + i] == c[i];
  }

  /** In the walk from the group of its parent the new task comes right behind what was below `p`. */
  lemma BelowGains(ts: Tasks, rank: seq<nat>, ts': Tasks, rank': seq<nat>, p: nat)
    requires NewChild(ts, rank, ts', rank', p)
    ensures WellFormed(ts, rank) && WellFormed(ts', rank') && |rank'| == |rank| + 1 && ts.leader[p] < |rank|
    ensures Below(ts', rank', ts.leader[p])
            == Earlier(ts, rank, p) + Own(ts, rank, p) + [|rank|] + Later(ts, rank, p)
  {
    hide *;
    NewChildFacts(ts, rank, ts', rank', p);
    var g, t, n := ts.leader[p], ts.slot[p], |rank|;
    KidsAround(ts, rank, p);
    PartsDistinct(ts, rank, p);
    KidsGain(ts, rank, ts', rank', p, g, t);
    NothingBelow(ts, rank, ts', rank', p);
    var a, b, c := KidsTo(ts, rank, g, t), ts.children[p], KidsFrom(ts, rank, g, t + 1);
    PartSame(ts, rank, ts', rank', p, a);
    PartSame(ts, rank, ts', rank', p, b);
    PartSame(ts, rank, ts', rank', p, c);
    KidsConcat(ts', rank', g, b, [n]);
    SingleBelow(ts', rank', g, n);
    PreParts(ts', rank', g, a, b, n, c);
    BelowIs(ts', rank', g);
    PartsAre(ts, rank, p);
  }

  lemma PartsAre(ts: Tasks, rank: seq<nat>, p: nat)
    requires WellFormed(ts, rank) && p < |rank| && Sized(ts, rank)
    requires ts.leader[p] < |rank| && ts.slot[p] < |ts.threads[ts.leader[p]]|
    requires AllKids(ts, rank, ts.leader[p], ts.children[p])
    ensures Earlier(ts, rank, p) == Pre(ts, rank, ts.leader[p], KidsTo(ts, rank, ts.leader[p], ts.slot[p]))
    ensures Own(ts, rank, p) == Pre(ts, rank, ts.leader[p], ts.children[p])
    ensures Later(ts, rank, p) == Pre(ts, rank, ts.leader[p], KidsFrom(ts, rank, ts.leader[p], ts.slot[p] + 1))
  {
    hide Pre, KidsTo, KidsFrom, WellFormed, AllKids, KidOf, Kids, Sized;
  }

  lemma PreParts(ts: Tasks, rank: seq<nat>, g: nat, a: seq<nat>, b: seq<nat>, n: nat, c: seq<nat>)
    requires WellFormed(ts, rank) && g < |rank| && AllKids(ts, rank, g, a) && AllKids(ts, rank, g, b)
    requires AllKids(ts, rank, g, [n]) && AllKids(ts, rank, g, c) && Pre(ts, rank, g, [n]) == [n]
    ensures AllKids(ts, rank, g, a + (b + [n]) + c)
    ensures Pre(ts, rank, g, a + (b + [n]) + c)
            == Pre(ts, rank, g, a) + Pre(ts, rank, g, b) + [n] + Pre(ts, rank, g, c)
  {
    hide *;
    PreConcat(ts, rank, g, b, [n]);
    PreConcat(ts, rank, g, a, b + [n]);
    PreConcat(ts, rank, g, a + (b + [n]), c);
    Assoc(Pre(ts, rank, g, a), Pre(ts, rank, g, b), [n], Pre(ts, rank, g, c));
  }

  lemma Assoc(a: seq<nat>, b: seq<nat>, m: seq<nat>, c: seq<nat>)
    ensures a + (b + m) + c == a + b + m + c
  {
  }

  lemma SingleBelow(ts: Tasks, rank: seq<nat>, g: nat, n: nat)
    requires WellFormed(ts, rank) && g < |rank| && AllKids(ts, rank, g, [n])
    ensures n < |rank| && Pre(ts, rank, g, [n]) == [n] + Below(ts, rank, n)
  {
    IsSized(ts, rank);
    PreNone(ts, rank, g);
    assert KidOf(ts, rank, g, [n][0]);
    PreCons(ts, rank, g, n, []);
    hide *;
    assert [n] + [] == [n];
  }

  /**
   A plain fork: the new task is the last child of `c`. Every walk from above the group of `c` gains it
   there, and every other walk is as before.
   */
  lemma PlainFork(ts: Tasks, rank: seq<nat>, c: nat, top: nat)
    requires WellFormed(ts, rank) && c < |rank| && top < |rank|
    ensures ts.parent[c] < |ts.children| && ts.leader[c] < |rank|
    ensures var ts', rank', g := CloneProcess(ts, c, false), RankBelow(rank), ts.leader[c];
            && WellFormed(ts', rank') && |rank'| == |rank| + 1
            && Below(ts, rank, g) == Earlier(ts, rank, c) + Own(ts, rank, c) + Later(ts, rank, c)
            && Below(ts', rank', g) == Earlier(ts, rank, c) + Own(ts, rank, c) + [|rank|] + Later(ts, rank, c)
            && if Under(ts, rank, top, g)
               then Replaced(Below(ts, rank, top), Below(ts', rank', top), Below(ts, rank, g), Below(ts', rank', g))
               else Below(ts', rank', top) == Below(ts, rank, top)
    ensures |rank| in Below(CloneProcess(ts, c, false), RankBelow(rank), top) <==> Under(ts, rank, top, ts.leader[c])
  {
    CloneProcessKeeps(ts, rank, c, false);
    var ts', rank' := CloneProcess(ts, c, false), RankBelow(rank);
    assert NewChild(ts, rank, ts', rank', c);
    hide *;
    NewChildWalks(ts, rank, ts', rank', c, top);
  }

  /** With CLONE_PARENT the new task is the last child of the real parent of `c` instead. */
  lemma SiblingFork(ts: Tasks, rank: seq<nat>, c: nat, top: nat)
    requires WellFormed(ts, rank) && c < |rank| && top < |rank|
    ensures ts.parent[c] < |ts.children| == |rank| && ts.leader[ts.parent[c]] < |rank|
    ensures var ts', rank', p := CloneProcess(ts, c, true), RankBelow(rank), ts.parent[c]; var g := ts.leader[p];
            && WellFormed(ts', rank') && |rank'| == |rank| + 1
            && Below(ts, rank, g) == Earlier(ts, rank, p) + Own(ts, rank, p) + Later(ts, rank, p)
            && Below(ts', rank', g) == Earlier(ts, rank, p) + Own(ts, rank, p) + [|rank|] + Later(ts, rank, p)
            && if Under(ts, rank, top, g)
               then Replaced(Below(ts, rank, top), Below(ts', rank', top), Below(ts, rank, g), Below(ts', rank', g))
               else Below(ts', rank', top) == Below(ts, rank, top)
    ensures |rank| in Below(CloneProcess(ts, c, true), RankBelow(rank), top) <==>
            Under(ts, rank, top, ts.leader[ts.parent[c]])
  {
    CloneProcessKeeps(ts, rank, c, true);
    IsSized(ts, rank);
    var ts', rank', p := CloneProcess(ts, c, true), RankBelow(rank), ts.parent[c];
    assert NewChild(ts, rank, ts', rank', p);
    hide *;
    NewChildWalks(ts, rank, ts', rank', p, top);
  }

  lemma {:induction false} PreInRange(ts: Tasks, rank: seq<nat>, l: nat, kids: seq<nat>)
    requires WellFormed(ts, rank) && l < |rank| && AllKids(ts, rank, l, kids)
    ensures forall x :: x in Pre(ts, rank, l, kids) ==> x < |rank|
    decreases rank[l], |kids|
  {
    hide *;
    IsSized(ts, rank);
    if kids == [] {
      PreNone(ts, rank, l);
    } else {
      KidsSplit(ts, rank, l, kids);
      PreCons(ts, rank, l, kids[0], kids[1..]);
      BelowIs(ts, rank, kids[0]);
      PreInRange(ts, rank, kids[0], Kids(ts, rank, kids[0]));
      PreInRange(ts, rank, l, kids[1..]);
    }
  }

  lemma Reappears(before: seq<nat>, after: seq<nat>, part: seq<nat>, part': seq<nat>, x: nat)
    requires Replaced(before, after, part, part') && x in part'
    ensures x in after
  {
  }

  lemma NewChildWalks(ts: Tasks, rank: seq<nat>, ts': Tasks, rank': seq<nat>, p: nat, top: nat)
    requires NewChild(ts, rank, ts', rank', p) && top < |rank|
    ensures WellFormed(ts, rank) && WellFormed(ts', rank') && |rank'| == |rank| + 1
    ensures p < |rank| && ts.leader[p] < |rank|
    ensures var g := ts.leader[p];
            && Below(ts, rank, g) == Earlier(ts, rank, p) + Own(ts, rank, p) + Later(ts, rank, p)
            && Below(ts', rank', g) == Earlier(ts, rank, p) + Own(ts, rank, p) + [|rank|] + Later(ts, rank, p)
            && if Under(ts, rank, top, g)
               then Replaced(Below(ts, rank, top), Below(ts', rank', top), Below(ts, rank, g), Below(ts', rank', g))
               else Below(ts', rank', top) == Below(ts, rank, top)
    ensures |rank| in Below(ts', rank', top) <==> Under(ts, rank, top, ts.leader[p])
  {
    BelowGains(ts, rank, ts', rank', p);
    NewChildGrown(ts, rank, ts', rank', p);
    assert p < |rank|;
    hide *;
    BelowParts(ts, rank, p);
    BelowGrown(ts, rank, ts', rank', ts.leader[p], top);
    BelowIs(ts, rank, top);
    PreInRange(ts, rank, top, Kids(ts, rank, top));
    if Under(ts, rank, top, ts.leader[p]) {
      Reappears(Below(ts, rank, top), Below(ts', rank', top), Below(ts, rank, ts.leader[p]),
                Below(ts', rank', ts.leader[p]), |rank|);
    }
  }

  // ---------- a new thread ----------

  lemma {:induction false} ThreadKidsSame(ts: Tasks, rank: seq<nat>, c: nat, l: nat, t: nat)
    requires WellFormed(ts, rank) && c < |rank| && l < |rank|
    requires ts.leader[c] < |ts.threads| && WellFormed(CloneThread(ts, c), RankBelow(rank))
    ensures KidsFrom(CloneThread(ts, c), RankBelow(rank), l, t) == KidsFrom(ts, rank, l, t)
    decreases |ts.threads[l]| - t
  {
    var ts', rank' := CloneThread(ts, c), RankBelow(rank);
    if t < |ts.threads[l]| {
      assert ThreadOk(ts, rank, l, t);
      ThreadKidsSame(ts, rank, c, l, t + 1);
      hide WellFormed;
    } else if t < |ts'.threads[l]| {
      assert ts'.threads[l][t] == |rank| && ts'.children[|rank|] == [];
      assert KidsFrom(ts', rank', l, t + 1) == [];
    }
  }

  /** A new thread changes no walk; forking from it is forking from its group. */
  lemma ThreadFork(ts: Tasks, rank: seq<nat>, c: nat, top: nat)
    requires WellFormed(ts, rank) && c < |rank| && top < |rank|
    ensures ts.leader[c] < |ts.threads|
    ensures var ts', rank' := CloneThread(ts, c), RankBelow(rank);
            && WellFormed(ts', rank') && |rank'| == |rank| + 1
            && Below(ts', rank', top) == Below(ts, rank, top)
            && ts'.leader[|rank|] == ts.leader[c] && ts'.parent[|rank|] == ts.parent[c]
  {
    assert TaskOk(ts, rank, c);
    CloneThreadKeeps(ts, rank, c);
    var ts', rank' := CloneThread(ts, c), RankBelow(rank);
    ThreadGrown(ts, rank, c, ts.leader[c]);
    ThreadKidsSame(ts, rank, c, top, 0);
    assert Kids(ts', rank', top) == Kids(ts, rank, top);
    ThreadGrown(ts, rank, c, top);
    hide WellFormed, Grown, Kids, Pre;
    KidsDistinctOf(ts, rank, top);
    BelowIs(ts, rank, top);
    BelowIs(ts', rank', top);
    NotOverItself(ts, rank, top, Kids(ts, rank, top));
    PreGrown(ts, rank, ts', rank', top, top, Kids(ts, rank, top));
  }

  lemma Ends(a: seq<nat>, x: nat)
    ensures a + [] == a && a + [x] + [] == a + [x]
  {
  }

  lemma LastThread(ts: Tasks, rank: seq<nat>, p: nat)
    requires WellFormed(ts, rank) && p < |rank| && Sized(ts, rank) && ts.leader[p] < |rank|
    requires ts.slot[p] + 1 == |ts.threads[ts.leader[p]]| && ts.children[p] == []
    ensures Own(ts, rank, p) == [] && Later(ts, rank, p) == []
  {
    assert KidsFrom(ts, rank, ts.leader[p], ts.slot[p] + 1) == [];
    hide KidsFrom, WellFormed;
  }

  lemma KidsDistinctOf(ts: Tasks, rank: seq<nat>, l: nat)
    requires WellFormed(ts, rank) && l < |rank|
    ensures Distinct(Kids(ts, rank, l))
  {
    KidsDistinct(ts, rank, l, 0);
  }

  lemma ThreadGrown(ts: Tasks, rank: seq<nat>, c: nat, g: nat)
    requires WellFormed(ts, rank) && c < |rank| && g < |rank|
    requires ts.leader[c] < |ts.threads| && WellFormed(CloneThread(ts, c), RankBelow(rank))
    ensures Grown(ts, rank, CloneThread(ts, c), RankBelow(rank), g)
  {
    var ts', rank' := CloneThread(ts, c), RankBelow(rank);
    forall l, k | 0 <= l < |rank| && KidOf(ts, rank, l, k)
      ensures KidOf(ts', rank', l, k)
    {
    }
    forall l | 0 <= l < |rank|
      ensures Kids(ts', rank', l) == Kids(ts, rank, l)
    {
      ThreadKidsSame(ts, rank, c, l, 0);
    }
  }

  // ---------- histories of forks ----------

  ghost function Leader(forks: seq<Fork>, c: nat): (g: nat)
    requires c <= |forks|
    ensures g <= |forks|
  {
    assert TaskOk(Forked(forks).0, Forked(forks).1, c);
    Forked(forks).0.leader[c]
  }

  ghost function Parent(forks: seq<Fork>, c: nat): (p: nat)
    requires c <= |forks|
    ensures p <= |forks|
  {
    assert TaskOk(Forked(forks).0, Forked(forks).1, c);
    Forked(forks).0.parent[c]
  }

  /** The walk from the group of `top` after a history of forks. */
  ghost function Seen(forks: seq<Fork>, top: nat): (order: seq<nat>)
    requires top <= |forks|
  {
    Below(Forked(forks).0, Forked(forks).1, top)
  }

  /** Its part before the children of thread `p`, with those of `p`, and behind. */
  ghost function SeenWith(forks: seq<Fork>, p: nat): (order: seq<nat>)
    requires p <= |forks|
  {
    Earlier(Forked(forks).0, Forked(forks).1, p) + Own(Forked(forks).0, Forked(forks).1, p)
  }

  ghost function SeenBehind(forks: seq<Fork>, p: nat): (order: seq<nat>)
    requires p <= |forks|
  {
    Later(Forked(forks).0, Forked(forks).1, p)
  }

  ghost predicate Above(forks: seq<Fork>, top: nat, l: nat)
    requires top <= |forks| && l <= |forks|
  {
    Under(Forked(forks).0, Forked(forks).1, top, l)
  }

  lemma ForkedNext(forks: seq<Fork>, fork: Fork)
    requires fork.current <= |forks|
    ensures var (ts, rank) := Forked(forks); var c := fork.current; var r := Forked(forks + [fork]);
            && WellFormed(ts, rank) && c < |rank| == |forks| + 1 && r.1 == RankBelow(rank)
            && ts.leader[c] < |ts.threads| && ts.parent[c] < |ts.children|
            && (fork.Thread? ==> r.0 == CloneThread(ts, c))
            && (fork.Process? ==> r.0 == CloneProcess(ts, c, fork.sameParent))
  {
    assert (forks + [fork])[..|forks|] == forks;
    var (ts, rank) := Forked(forks);
    assert TaskOk(ts, rank, fork.current);
  }

  /** After any history of forks a plain fork of `c` is seen by exactly the walks from the group of `c` and above. */
  lemma PlainForkSeen(forks: seq<Fork>, c: nat, top: nat)
    requires c <= |forks| && top <= |forks|
    ensures |forks| + 1 in Seen(forks + [Process(c, false)], top) <==> Above(forks, top, Leader(forks, c))
    ensures Seen(forks, Leader(forks, c)) == SeenWith(forks, c) + SeenBehind(forks, c)
    ensures Seen(forks + [Process(c, false)], Leader(forks, c))
            == SeenWith(forks, c) + [|forks| + 1] + SeenBehind(forks, c)
    ensures !Above(forks, top, Leader(forks, c)) ==> Seen(forks + [Process(c, false)], top) == Seen(forks, top)
  {
    ForkedNext(forks, Process(c, false));
    var (ts, rank) := Forked(forks);
    hide Forked, WellFormed, Below, Under, Earlier, Own, Later, RankBelow, CloneProcess, Replaced;
    PlainFork(ts, rank, c, top);
  }

  /** With CLONE_PARENT it is seen by exactly the walks from the group of the real parent of `c` and above. */
  lemma SiblingForkSeen(forks: seq<Fork>, c: nat, top: nat)
    requires c <= |forks| && top <= |forks|
    ensures var p := Parent(forks, c); var g := Leader(forks, p);
            && (|forks| + 1 in Seen(forks + [Process(c, true)], top) <==> Above(forks, top, g))
            && Seen(forks, g) == SeenWith(forks, p) + SeenBehind(forks, p)
            && Seen(forks + [Process(c, true)], g) == SeenWith(forks, p) + [|forks| + 1] + SeenBehind(forks, p)
            && (!Above(forks, top, g) ==> Seen(forks + [Process(c, true)], top) == Seen(forks, top))
  {
    ForkedNext(forks, Process(c, true));
    var (ts, rank) := Forked(forks);
    var p := Parent(forks, c);
    var g := Leader(forks, p);
    hide Forked, WellFormed, Below, Under, Earlier, Own, Later, RankBelow, CloneProcess, Replaced;
    SiblingFork(ts, rank, c, top);
  }

  /** A new thread is seen by no walk. */
  lemma ThreadUnseen(forks: seq<Fork>, c: nat, top: nat)
    requires c <= |forks| && top <= |forks|
    ensures Seen(forks + [Thread(c)], top) == Seen(forks, top)
    ensures Leader(forks + [Thread(c)], |forks| + 1) == Leader(forks, c)
    ensures Parent(forks + [Thread(c)], |forks| + 1) == Parent(forks, c)
  {
    ForkedNext(forks, Thread(c));
    var (ts, rank) := Forked(forks);
    hide Forked, WellFormed, Below, RankBelow, CloneThread;
    ThreadFork(ts, rank, c, top);
  }

  lemma ThreadIsLast(forks: seq<Fork>, c: nat)
    requires c <= |forks|
    ensures SeenBehind(forks + [Thread(c)], |forks| + 1) == []
  {
    hide *;
    ForkedNext(forks, Thread(c));
    var later := forks + [Thread(c)];
    JoinsLast(Forked(forks).0, Forked(forks).1, c, Forked(later).0, Forked(later).1);
    LastThread(Forked(later).0, Forked(later).1, |forks| + 1);
    BehindIs(later, |forks| + 1);
  }

  lemma BehindIs(forks: seq<Fork>, p: nat)
    requires p <= |forks|
    ensures SeenBehind(forks, p) == Later(Forked(forks).0, Forked(forks).1, p)
  {
  }

  lemma JoinsLast(ts: Tasks, rank: seq<nat>, c: nat, ts': Tasks, rank': seq<nat>)
    requires WellFormed(ts, rank) && c < |rank| && ts.leader[c] < |ts.threads| && ts' == CloneThread(ts, c)
    requires WellFormed(ts', rank') && |rank'| == |rank| + 1
    ensures Sized(ts', rank') && ts.leader[c] < |rank|
    ensures |ts'.leader| == |ts'.slot| == |ts'.threads| == |ts'.children| == |rank'|
    ensures ts'.leader[|rank|] == ts.leader[c] && ts'.children[|rank|] == []
    ensures ts'.slot[|rank|] + 1 == |ts'.threads[ts.leader[c]]|
  {
    IsSized(ts, rank);
    IsSized(ts', rank');
    hide WellFormed;
  }

  /** A process forked by a new thread comes last in the walk from its group. */
  lemma ForkedByThread(forks: seq<Fork>, c: nat)
    requires c <= |forks|
    ensures var g, n := Leader(forks, c), |forks| + 1;
            Seen(forks + [Thread(c)] + [Process(n, false)], g) == Seen(forks, g) + [n + 1]
  {
    hide *;
    var g, n := Leader(forks, c), |forks| + 1;
    var later := forks + [Thread(c)];
    ThreadIsLast(forks, c);
    ThreadUnseen(forks, c, g);
    PlainForkSeen(later, n, g);
    Ends(SeenWith(later, n), n + 1);
  }
}
