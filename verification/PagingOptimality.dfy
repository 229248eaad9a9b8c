/**
 Belady's theorem: evicting the page whose next use is furthest away never costs more page loads than
 any other policy, on any reference string and with any number of frames.

 The proof compares, for every look-ahead `t`, how many pages needed within the next `t` references
 are resident. The rival may lead by at most `d` for every `t`, and each unit of the lead is worth one fault.
 */
module PagingOptimality {
  import opened Basics
  import opened Paging
  import opened Counting

  ghost function Near(frames: set<int>, s: seq<int>, t: nat): (r: set<int>)
    requires t <= |s|
  {
    set x | x in frames && x in s[..t]
  }

  ghost predicate LeadAtMost(ours: set<int>, theirs: set<int>, s: seq<int>, d: int)
  {
    forall t :: 0 <= t <= |s| ==> |Near(theirs, s, t)| <= |Near(ours, s, t)| + d
  }

  /** Look-ahead counts before and after the reference `s[0]`, in terms of the other resident pages. */
  lemma NearStep(frames: set<int>, s: seq<int>, t: nat)
    requires s != [] && t <= |s[1..]|
    ensures var others := |Near(frames - {s[0]}, s[1..], t)|;
            && |Near(frames, s, t + 1)| == others + (if s[0] in frames then 1 else 0)
            && |Near(frames, s[1..], t)| == others + (if s[0] in frames && s[0] in s[1..][..t] then 1 else 0)
  {
    var p, window := s[0], s[1..][..t];
    assert s[..t + 1] == [p] + window;
    Common(frames, [p] + window, p, window);
    Common(frames, window, p, window);
  }

  /** How many frames are in `longer`, which adds at most the page `p` to `window`. */
  lemma Common(frames: set<int>, longer: seq<int>, p: int, window: seq<int>)
    requires longer == window || longer == [p] + window
    ensures var others := |set x | x in frames - {p} && x in window|;
            |set x | x in frames && x in longer| == others + if p in frames && p in longer then 1 else 0
  {
    var others := set x | x in frames - {p} && x in window;
    var all := set x | x in frames && x in longer;
    assert forall x :: x != p ==> (x in longer <==> x in window);
    if p in frames && p in longer {
      assert all == others + {p};
    } else {
      assert all == others;
    }
  }

  /** Loading `c` pages, besides the referenced one, adds at most `c` to any look-ahead count. */
  lemma RivalStep(theirs: set<int>, theirs': set<int>, s: seq<int>, t: nat, p: int)
    requires t <= |s|
    ensures |Near(theirs' - {p}, s, t)| <= |Near(theirs - {p}, s, t)| + |theirs' - theirs - {p}|
  {
    var a, a', c := Near(theirs - {p}, s, t), Near(theirs' - {p}, s, t), theirs' - theirs - {p};
    SubsetCount(a', a + c);
    assert |a + c| == |a| + |c| - |a * c|;
  }

  lemma RivalLoads(theirs: set<int>, theirs': set<int>, p: int)
    requires p in theirs'
    ensures |theirs' - theirs| == |theirs' - theirs - {p}| + (if p in theirs then 0 else 1)
  {
    assert theirs' - theirs == (theirs' - theirs - {p}) + if p in theirs then {} else {p};
  }

  lemma NextUseBound(future: seq<int>, p: int, t: nat)
    requires t <= |future|
    ensures p in future[..t] <==> NextUse(future, p) < t
  {
    if NextUse(future, p) < t {
      assert future[..t][NextUse(future, p)] == p;
    } else {
      assert future[..t] <= future[..NextUse(future, p)];
    }
  }

  /** Whenever the page given up is needed within `t` references, so is every other resident page. */
  lemma VictimIsFurthest(q: seq<int>, future: seq<int>, t: nat)
    requires q != [] && t <= |future|
    requires q[Victim(Opt, q, future)] in future[..t]
    ensures Near(Elements(q), future, t) == Elements(q)
  {
    var v := Victim(Opt, q, future);
    forall x | x in q
      ensures x in future[..t]
    {
      var u :| 0 <= u < |q| && q[u] == x;
      NextUseBound(future, q[v], t);
      assert NextUse(future, q[u]) <= NextUse(future, q[v]) < t;
      assert future[..t][NextUse(future, x)] == x;
    }
  }

  /** On a miss, either no look-ahead count drops, or every other page kept is needed within `t`. */
  lemma OptMiss(k: nat, q: seq<int>, p: int, rest: seq<int>, t: nat)
    requires 1 <= k && |q| <= k && Distinct(q) && p !in q && t <= |rest|
    ensures var kept := |Near(Elements(Next(Opt, k, q, p, rest)) - {p}, rest, t)|;
            kept >= |Near(Elements(q), rest, t)| || kept == k - 1
  {
    var ours, ours' := Elements(q), Elements(Next(Opt, k, q, p, rest));
    NextElements(Opt, k, q, p, rest);
    if |q| < k {
      assert ours' - {p} == ours;
    } else {
      var y := q[Victim(Opt, q, rest)];
      assert ours' - {p} == ours - {y};
      if y in rest[..t] {
        VictimIsFurthest(q, rest, t);
        assert Near(ours - {y}, rest, t) == ours - {y};
        DistinctSize(q);
      } else {
        assert Near(ours - {y}, rest, t) == Near(ours, rest, t);
      }
    }
  }

  /** On a miss the rival either pays or loses a unit of its lead. */
  lemma MissPays(q: seq<int>, s: seq<int>, theirs: set<int>, theirs': set<int>, d: nat)
    requires s != [] && s[0] !in q && s[0] in theirs'
    requires LeadAtMost(Elements(q), theirs, s, d)
    ensures d + |theirs' - theirs| >= 1
  {
    if s[0] in theirs {
      NearStep(theirs, s, 0);
      NearStep(Elements(q), s, 0);
      assert |Near(theirs, s, 1)| <= |Near(Elements(q), s, 1)| + d;
    } else {
      assert s[0] in theirs' - theirs;
    }
  }

  /** On a miss the lead shrinks by one, up to what the rival pays. */
  lemma MissLead(k: nat, q: seq<int>, s: seq<int>, theirs: set<int>, theirs': set<int>, d: nat, t: nat)
    requires s != [] && 1 <= k && |q| <= k && Distinct(q) && s[0] !in q
    requires s[0] in theirs' && |theirs'| <= k
    requires LeadAtMost(Elements(q), theirs, s, d)
    requires t <= |s[1..]|
    ensures var q' := Next(Opt, k, q, s[0], s[1..]);
            |Near(theirs', s[1..], t)| <= |Near(Elements(q'), s[1..], t)| + d + |theirs' - theirs| - 1
  {
    var p, rest := s[0], s[1..];
    var ours, ours' := Elements(q), Elements(Next(Opt, k, q, p, rest));
    MissPays(q, s, theirs, theirs', d);
    RivalLoads(theirs, theirs', p);
    RivalStep(theirs, theirs', rest, t, p);
    NearStep(theirs, s, t);
    NearStep(theirs', s, t);
    NearStep(ours, s, t);
    NearStep(ours', s, t);
    assert ours - {p} == ours;
    assert p in ours' by { NextElements(Opt, k, q, p, rest); }
    OptMiss(k, q, p, rest, t);
    SubsetCount(Near(theirs' - {p}, rest, t), theirs' - {p});
    assert |Near(theirs, s, t + 1)| <= |Near(ours, s, t + 1)| + d;
  }

  /** On a hit the lead grows by no more than what the rival pays. */
  lemma HitLead(k: nat, q: seq<int>, s: seq<int>, theirs: set<int>, theirs': set<int>, d: nat, t: nat)
    requires s != [] && 1 <= k && |q| <= k && Distinct(q) && s[0] in q
    requires s[0] in theirs'
    requires LeadAtMost(Elements(q), theirs, s, d)
    requires t <= |s[1..]|
    ensures |Near(theirs', s[1..], t)| <= |Near(Elements(q), s[1..], t)| + d + |theirs' - theirs|
  {
    RivalLoads(theirs, theirs', s[0]);
    RivalStep(theirs, theirs', s[1..], t, s[0]);
    NearStep(theirs, s, t);
    NearStep(theirs', s, t);
    NearStep(Elements(q), s, t);
  }

  lemma {:induction false} OptFromLead(k: nat, q: seq<int>, s: seq<int>,
                                       theirs: set<int>, frames: seq<set<int>>, d: nat)
    requires 1 <= k && |q| <= k && Distinct(q)
    requires Serves(k, s, frames)
    requires LeadAtMost(Elements(q), theirs, s, d)
    ensures Faults(Opt, k, q, s) <= Loads(theirs, frames) + d
    decreases s
  {
    if s != [] {
      var q' := Next(Opt, k, q, s[0], s[1..]);
      NextElements(Opt, k, q, s[0], s[1..]);
      assert s[0] in frames[0] && |frames[0]| <= k;
      var d' := d + |frames[0] - theirs| - if s[0] in q then 0 else 1;
      forall t | 0 <= t <= |s[1..]|
        ensures |Near(frames[0], s[1..], t)| <= |Near(Elements(q'), s[1..], t)| + d' && d' >= 0
      {
        if s[0] in q {
          HitLead(k, q, s, theirs, frames[0], d, t);
        } else {
          MissPays(q, s, theirs, frames[0], d);
          MissLead(k, q, s, theirs, frames[0], d, t);
        }
      }
      assert LeadAtMost(Elements(q'), frames[0], s[1..], d');
      assert d' >= 0 by {
        if s[0] !in q { MissPays(q, s, theirs, frames[0], d); }
      }
      OptFromLead(k, q', s[1..], frames[0], frames[1..], d');
    }
  }

  /** OPT's fault count is at most the number of pages any policy with `k` initially empty frames loads. */
  lemma OptIsOptimal(k: nat, s: seq<int>, frames: seq<set<int>>)
    requires 1 <= k && Serves(k, s, frames)
    ensures Faults(Opt, k, [], s) <= Loads({}, frames)
  {
    assert forall t :: 0 <= t <= |s| ==> Near({}, s, t) == {};
    OptFromLead(k, [], s, {}, frames, 0);
  }

  /** For demand paging that means misses: no on-demand policy misses less often than OPT. */
  lemma OptMissesLeast(k: nat, s: seq<int>, frames: seq<set<int>>)
    requires 1 <= k && Serves(k, s, frames) && OnDemand({}, s, frames)
    ensures Faults(Opt, k, [], s) <= Misses({}, s, frames)
  {
    hide Faults, Loads, Misses, OnDemand, Serves;
    OptIsOptimal(k, s, frames);
    LoadsAreMisses(k, {}, s, frames);
  }

  /** In particular OPT never faults more often than FIFO or LRU. */
  lemma OptBeatsQueuePolicies(pol: Policy, k: nat, s: seq<int>)
    requires 1 <= k
    ensures Faults(Opt, k, [], s) <= Faults(pol, k, [], s)
  {
    var frames := PolicyFrames(pol, k, [], s);
    assert Elements([]) == {};
    OptIsOptimal(k, s, frames);
  }
}
