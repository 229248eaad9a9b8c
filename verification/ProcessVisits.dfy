/**
 Which tasks a walk over the process tree visits: none twice, only leaders below the start, and all of
 those when the visitor always asks to descend.
 */
module ProcessVisits {
  import opened Basics
  import opened ProcessTree

  // ---------- ancestors ----------

  ghost predicate Covers(ts: Tasks, rank: seq<nat>, kids: seq<nat>, x: nat)
    requires WellFormed(ts, rank)
  {
    x < |rank| && exists i :: 0 <= i < |kids| && kids[i] < |rank| && Under(ts, rank, kids[i], x)
  }

  lemma {:induction false} UnderRank(ts: Tasks, rank: seq<nat>, top: nat, x: nat)
    requires WellFormed(ts, rank) && top < |rank| && x < |rank| && Under(ts, rank, top, x)
    ensures rank[x] <= rank[top]
  {
  }

  /** What is under a child of a group is under the group. */
  lemma {:induction false} UnderKid(ts: Tasks, rank: seq<nat>, l: nat, k: nat, x: nat)
    requires WellFormed(ts, rank) && l < |rank| && KidOf(ts, rank, l, k) && x < |rank| && Under(ts, rank, k, x)
    ensures Under(ts, rank, l, x) && x != l
    decreases rank[k] as int - rank[x] as int
  {
    UnderRank(ts, rank, k, x);
    hide WellFormed, KidOf;
    if x != k {
      UnderKid(ts, rank, l, k, ts.leader[ts.parent[x]]);
    }
  }

  /** What is strictly under a group is under one of its children. */
  lemma {:induction false} UnderSome(ts: Tasks, rank: seq<nat>, l: nat, x: nat) returns (k: nat)
    requires WellFormed(ts, rank) && l < |rank| && x < |rank| && Under(ts, rank, l, x) && x != l
    ensures k < |rank| && KidOf(ts, rank, l, k) && Under(ts, rank, k, x)
    decreases rank[l] as int - rank[x] as int
  {
    assert Sized(ts, rank);
    hide WellFormed;
    var up := ts.leader[ts.parent[x]];
    if up == l {
      k := x;
    } else {
      k := UnderSome(ts, rank, l, up);
      UnderRank(ts, rank, k, up);
    }
  }

  /** Two children of one group have nothing under them in common. */
  lemma {:induction false} KidsApart(ts: Tasks, rank: seq<nat>, l: nat, k: nat, k': nat, x: nat)
    requires WellFormed(ts, rank) && l < |rank| && KidOf(ts, rank, l, k) && KidOf(ts, rank, l, k')
    requires x < |rank| && Under(ts, rank, k, x) && Under(ts, rank, k', x)
    ensures k == k'
    decreases rank[l] as int - rank[x] as int
  {
    assert Sized(ts, rank);
    hide WellFormed;
    if x == k && x != k' {
      UnderRank(ts, rank, k', l);
    } else if x != k && x == k' {
      UnderRank(ts, rank, k, l);
    } else if x != k {
      UnderRank(ts, rank, k, x);
      KidsApart(ts, rank, l, k, k', ts.leader[ts.parent[x]]);
    }
  }

  // ---------- the children of a group ----------

  ghost predicate LaterSlots(ts: Tasks, rank: seq<nat>, t: nat, kids: seq<nat>)
    requires WellFormed(ts, rank)
  {
    forall i :: 0 <= i < |kids| ==> kids[i] < |rank| && ts.parent[kids[i]] < |rank| && ts.slot[ts.parent[kids[i]]] >= t
  }

  /** Every child is listed once, under the thread that is its parent. */
  lemma {:induction false} KidsDistinct(ts: Tasks, rank: seq<nat>, l: nat, t: nat)
    requires WellFormed(ts, rank) && l < |rank|
    ensures Distinct(KidsFrom(ts, rank, l, t)) && LaterSlots(ts, rank, t, KidsFrom(ts, rank, l, t))
    decreases |ts.threads[l]| - t
  {
    if t < |ts.threads[l]| {
      KidsDistinct(ts, rank, l, t + 1);
      assert ThreadOk(ts, rank, l, t);
      var p := ts.threads[l][t];
      var own, later := ts.children[p], KidsFrom(ts, rank, l, t + 1);
      forall i | 0 <= i < |own|
        ensures own[i] < |rank| && ts.parent[own[i]] == p && ts.sibling[own[i]] == i
      {
        assert ChildOk(ts, rank, p, i);
      }
      hide WellFormed;
      assert KidsFrom(ts, rank, l, t) == own + later;
    }
  }

  lemma {:induction false} KidListed(ts: Tasks, rank: seq<nat>, l: nat, t: nat, k: nat)
    requires WellFormed(ts, rank) && l < |rank| && KidOf(ts, rank, l, k) && ts.slot[ts.parent[k]] >= t
    ensures k in KidsFrom(ts, rank, l, t)
    decreases |ts.threads[l]| - t
  {
    var p := ts.parent[k];
    assert TaskOk(ts, rank, p);
    assert k in ts.children[p];
    hide WellFormed;
    if ts.slot[p] > t {
      KidListed(ts, rank, l, t + 1, k);
    }
  }

  // ---------- visits ----------

  /** The visitor that also records its calls. */
  function Recording<D>(visit: (nat, D) -> (int, D)): (v: (nat, (D, seq<nat>)) -> (int, (D, seq<nat>)))
  {
    (k: nat, s: (D, seq<nat>)) => (visit(k, s.0).0, (visit(k, s.0).1, s.1 + [k]))
  }

  ghost predicate Descends<D(!new)>(visit: (nat, D) -> (int, D))
  {
    forall k, d :: visit(k, d).0 > 0
  }

  lemma CoversCons(ts: Tasks, rank: seq<nat>, k: nat, kids: seq<nat>, x: nat)
    requires WellFormed(ts, rank) && k < |rank|
    ensures Covers(ts, rank, [k] + kids, x) <==> x < |rank| && (Under(ts, rank, k, x) || Covers(ts, rank, kids, x))
  {
    hide WellFormed, Under;
    if x < |rank| && Under(ts, rank, k, x) {
      assert ([k] + kids)[0] == k;
    }
    if Covers(ts, rank, kids, x) {
      var i :| 0 <= i < |kids| && kids[i] < |rank| && Under(ts, rank, kids[i], x);
      assert ([k] + kids)[i + 1] == kids[i];
    }
  }

  lemma CoversKids(ts: Tasks, rank: seq<nat>, k: nat, x: nat)
    requires WellFormed(ts, rank) && k < |rank| && x < |rank|
    ensures Under(ts, rank, k, x) <==> x == k || Covers(ts, rank, Kids(ts, rank, k), x)
    ensures Covers(ts, rank, Kids(ts, rank, k), x) ==> x != k
  {
    assert Sized(ts, rank);
    hide WellFormed;
    if Under(ts, rank, k, x) && x != k {
      var kk := UnderSome(ts, rank, k, x);
      KidListed(ts, rank, k, 0, kk);
    }
    if Covers(ts, rank, Kids(ts, rank, k), x) {
      var kids := Kids(ts, rank, k);
      var i :| 0 <= i < |kids| && kids[i] < |rank| && Under(ts, rank, kids[i], x);
      UnderKid(ts, rank, k, kids[i], x);
    }
  }

  /** Nothing under the first child is under a later one. */
  lemma HeadApart(ts: Tasks, rank: seq<nat>, l: nat, kids: seq<nat>, x: nat)
    requires WellFormed(ts, rank) && l < |rank| && AllKids(ts, rank, l, kids) && Distinct(kids) && kids != []
    requires x < |rank| && kids[0] < |rank| && Under(ts, rank, kids[0], x)
    ensures !Covers(ts, rank, kids[1..], x)
  {
    hide WellFormed, KidOf;
    var rest := kids[1..];
    if Covers(ts, rank, rest, x) {
      var i :| 0 <= i < |rest| && rest[i] < |rank| && Under(ts, rank, rest[i], x);
      assert rest[i] == kids[i + 1];
      KidsApart(ts, rank, l, kids[0], kids[i + 1], x);
    }
  }

  ghost predicate Within(ts: Tasks, rank: seq<nat>, kids: seq<nat>, calls: seq<nat>)
    requires WellFormed(ts, rank)
  {
    Distinct(calls) && forall i :: 0 <= i < |calls| ==> Covers(ts, rank, kids, calls[i])
  }

  ghost predicate AllUnder(ts: Tasks, rank: seq<nat>, k: nat, calls: seq<nat>)
    requires WellFormed(ts, rank) && k < |rank|
  {
    Distinct(calls) && forall i :: 0 <= i < |calls| ==> calls[i] < |rank| && Under(ts, rank, k, calls[i])
  }

  lemma HeadCalls(ts: Tasks, rank: seq<nat>, k: nat, below: seq<nat>)
    requires WellFormed(ts, rank) && k < |rank| && Within(ts, rank, Kids(ts, rank, k), below)
    ensures AllUnder(ts, rank, k, [k] + below)
  {
    assert Under(ts, rank, k, k);
    hide WellFormed, Covers, Under, Kids;
    forall i | 0 <= i < |below|
      ensures below[i] < |rank| && Under(ts, rank, k, below[i]) && below[i] != k
    {
      CoversIn(ts, rank, Kids(ts, rank, k), below[i]);
      CoversKids(ts, rank, k, below[i]);
    }
  }

  /** The calls for the first child and what is under it, and those for the other children do not repeat. */
  lemma JoinCalls(ts: Tasks, rank: seq<nat>, l: nat, kids: seq<nat>, head: seq<nat>, after: seq<nat>)
    requires WellFormed(ts, rank) && l < |rank| && AllKids(ts, rank, l, kids) && Distinct(kids) && kids != []
    requires kids[0] < |rank| && AllUnder(ts, rank, kids[0], head) && Within(ts, rank, kids[1..], after)
    ensures Within(ts, rank, kids, head + after)
  {
    hide WellFormed, Covers, AllKids, Under;
    assert kids == [kids[0]] + kids[1..];
    forall i | 0 <= i < |head|
      ensures Covers(ts, rank, kids, head[i]) && !Covers(ts, rank, kids[1..], head[i])
    {
      CoversCons(ts, rank, kids[0], kids[1..], head[i]);
      HeadApart(ts, rank, l, kids, head[i]);
    }
    forall i | 0 <= i < |after|
      ensures Covers(ts, rank, kids, after[i])
    {
      CoversIn(ts, rank, kids[1..], after[i]);
      CoversCons(ts, rank, kids[0], kids[1..], after[i]);
    }
  }

  lemma CoversIn(ts: Tasks, rank: seq<nat>, kids: seq<nat>, x: nat)
    requires WellFormed(ts, rank) && Covers(ts, rank, kids, x)
    ensures x < |rank|
  {
  }

  lemma WithinNone(ts: Tasks, rank: seq<nat>, kids: seq<nat>)
    requires WellFormed(ts, rank)
    ensures Within(ts, rank, kids, [])
  {
  }

  lemma KidsLow(ts: Tasks, rank: seq<nat>, k: nat)
    requires WellFormed(ts, rank) && k < |rank|
    ensures Low(rank, rank[k], Kids(ts, rank, k))
  {
  }

  lemma TailKids(ts: Tasks, rank: seq<nat>, l: nat, kids: seq<nat>)
    requires WellFormed(ts, rank) && l < |rank|
    requires AllKids(ts, rank, l, kids) && Low(rank, rank[l], kids) && Distinct(kids)
    requires kids != []
    ensures AllKids(ts, rank, l, kids[1..]) && Low(rank, rank[l], kids[1..]) && Distinct(kids[1..])
    ensures kids[0] < |rank| && rank[kids[0]] < rank[l]
    ensures Low(rank, rank[kids[0]], Kids(ts, rank, kids[0])) && AllKids(ts, rank, kids[0], Kids(ts, rank, kids[0]))
    ensures Distinct(Kids(ts, rank, kids[0]))
  {
    KidsDistinct(ts, rank, kids[0], 0);
    hide WellFormed, KidOf;
  }

  /** How a recorded walk unfolds at its first child. */
  lemma RecordedStep<D>(ts: Tasks, rank: seq<nat>, l: nat, kids: seq<nat>,
                        visit: (nat, D) -> (int, D), d: D, log: seq<nat>)
    requires WellFormed(ts, rank) && l < |rank|
    requires Low(rank, rank[l], kids) && kids != [] && Low(rank, rank[l], kids[1..])
    requires kids[0] < |rank| && Low(rank, rank[kids[0]], Kids(ts, rank, kids[0]))
    ensures var v, k := Recording(visit), kids[0];
            var (res, d1) := visit(k, d); var log1 := log + [k]; var all := Walk(ts, rank, rank[l], kids, v, (d, log));
            && (res < 0 ==> all.data.1 == log1)
            && (res == 0 ==> all == Walk(ts, rank, rank[l], kids[1..], v, (d1, log1)))
            && (res > 0 ==> var below := Walk(ts, rank, rank[k], Kids(ts, rank, k), v, (d1, log1));
                            all == if below.stopped then below else Walk(ts, rank, rank[l], kids[1..], v, below.data))
  {
    hide WellFormed, Kids;
    assert kids == [kids[0]] + kids[1..];
    assert Recording(visit)(kids[0], (d, log)) == (visit(kids[0], d).0, (visit(kids[0], d).1, log + [kids[0]]));
    WalkCons(ts, rank, rank[l], kids[0], kids[1..], Recording(visit), (d, log));
    hide Walk, Recording;
  }

  /** The calls of a walk, for any visitor: no task twice, and only tasks under the given children. */
  lemma {:induction false} Calls<D>(ts: Tasks, rank: seq<nat>, l: nat, kids: seq<nat>,
                                    visit: (nat, D) -> (int, D), d: D, log: seq<nat>) returns (calls: seq<nat>)
    requires WellFormed(ts, rank) && l < |rank|
    requires AllKids(ts, rank, l, kids) && Low(rank, rank[l], kids) && Distinct(kids)
    ensures Walk(ts, rank, rank[l], kids, Recording(visit), (d, log)).data.1 == log + calls
    ensures Within(ts, rank, kids, calls)
    decreases rank[l], |kids|
  {
    if kids == [] {
      calls := [];
      WithinNone(ts, rank, kids);
    } else {
      hide *;
      TailKids(ts, rank, l, kids);
      RecordedStep(ts, rank, l, kids, visit, d, log);
      var k: nat, rest: seq<nat> := kids[0], kids[1..];
      var res, d1 := visit(k, d).0, visit(k, d).1;
      var below: seq<nat>, after: seq<nat> := [], [];
      WithinNone(ts, rank, Kids(ts, rank, k));
      WithinNone(ts, rank, rest);
      var log1 := log + [k];
      if res == 0 {
        after := Calls(ts, rank, l, rest, visit, d1, log1);
      } else if res > 0 {
        below := Calls(ts, rank, k, Kids(ts, rank, k), visit, d1, log1);
        var r := Walk(ts, rank, rank[k], Kids(ts, rank, k), Recording(visit), (d1, log1));
        if !r.stopped {
          after := Calls(ts, rank, l, rest, visit, r.data.0, r.data.1);
        }
      }
      Concat(log, k, below, after);
      HeadCalls(ts, rank, k, below);
      JoinCalls(ts, rank, l, kids, [k] + below, after);
      calls := [k] + below + after;
    }
  }

  lemma Concat(log: seq<nat>, k: nat, below: seq<nat>, after: seq<nat>)
    ensures log + [k] + below + after == log + ([k] + below + after)
    ensures below == [] ==> log + [k] + after == log + ([k] + below + after)
    ensures after == [] ==> log + [k] + below == log + ([k] + below + after)
    ensures below == after == [] ==> log + [k] == log + ([k] + below + after)
  {
  }

  /** A visitor that always descends reaches everything under the given children. */
  lemma {:induction false} AllCalled<D(!new)>(ts: Tasks, rank: seq<nat>, l: nat, kids: seq<nat>,
                                              visit: (nat, D) -> (int, D), d: D, log: seq<nat>, x: nat)
    requires WellFormed(ts, rank) && l < |rank| && AllKids(ts, rank, l, kids) && Low(rank, rank[l], kids)
    requires Descends(visit) && x < |rank| && (Covers(ts, rank, kids, x) || x in log)
    ensures var r := Walk(ts, rank, rank[l], kids, Recording(visit), (d, log));
            !r.stopped && x in r.data.1
    decreases rank[l], |kids|
  {
    assert Sized(ts, rank);
    hide WellFormed, KidOf, Covers, Under, Kids;
    if kids == [] {
      NothingCovered(ts, rank, x);
    } else {
      var k, rest := kids[0], kids[1..];
      var d1 := visit(k, d).1;
      assert Recording(visit)(k, (d, log)) == (visit(k, d).0, (d1, log + [k]));
      assert visit(k, d).0 > 0;
      assert KidOf(ts, rank, l, k);
      assert kids == [k] + rest;
      CoversCons(ts, rank, k, rest, x);
      CoversKids(ts, rank, k, x);
      KidsLow(ts, rank, k);
      var y := if Covers(ts, rank, Kids(ts, rank, k), x) || x in log + [k] then x else k;
      AllCalled(ts, rank, k, Kids(ts, rank, k), visit, d1, log + [k], y);
      var r := Walk(ts, rank, rank[k], Kids(ts, rank, k), Recording(visit), (d1, log + [k]));
      AllCalled(ts, rank, l, rest, visit, r.data.0, r.data.1, x);
    }
  }

  lemma NothingCovered(ts: Tasks, rank: seq<nat>, x: nat)
    requires WellFormed(ts, rank)
    ensures !Covers(ts, rank, [], x)
  {
  }

  /**
   The walk from the group of `top` visits no task twice and only what is properly under `top`; if the
   visitor always descends it visits all of that.
   */
  lemma EachDescendantOnce<D(!new)>(ts: Tasks, rank: seq<nat>, top: nat, visit: (nat, D) -> (int, D), d: D)
    requires WellFormed(ts, rank) && top < |rank|
    ensures Low(rank, rank[top], Kids(ts, rank, top))
    ensures var calls := Walk(ts, rank, rank[top], Kids(ts, rank, top), Recording(visit), (d, [])).data.1;
            && Distinct(calls)
            && (forall x :: x in calls ==> x < |rank| && x != top && Under(ts, rank, top, x))
            && (Descends(visit) ==> forall x :: 0 <= x < |rank| && x != top && Under(ts, rank, top, x) ==> x in calls)
  {
    KidsLow(ts, rank, top);
    KidsDistinct(ts, rank, top, 0);
    var kids := Kids(ts, rank, top);
    var calls := Calls(ts, rank, top, kids, visit, d, []);
    assert [] + calls == calls;
    hide WellFormed, Under, Covers, Walk, KidsFrom, Low, AllKids;
    forall x | x in calls
      ensures x < |rank| && x != top && Under(ts, rank, top, x)
    {
      CoversIn(ts, rank, kids, x);
      CoversKids(ts, rank, top, x);
    }
    if Descends(visit) {
      forall x | 0 <= x < |rank| && x != top && Under(ts, rank, top, x)
        ensures x in calls
      {
        CoversKids(ts, rank, top, x);
        AllCalled(ts, rank, top, kids, visit, d, [], x);
      }
    }
  }
}
