/**
 Page replacement as pure functions on the queue of resident pages: what one reference does under
 OPT, FIFO and LRU, how many faults a reference string costs, and what an arbitrary policy is.
 */
module Paging {
  import opened Basics

  datatype Policy = Opt | Fifo | Lru

  function Elements(q: seq<int>): (r: set<int>)
  {
    set x | x in q
  }

  function RemoveAt(q: seq<int>, i: nat): (r: seq<int>)
    requires i < |q|
  {
    q[..i] + q[i + 1..]
  }

  /** The first position of `p` in `s`, or `|s|` when it does not occur. */
  function IndexOf(s: seq<int>, p: int): (n: nat)
    ensures n <= |s| && p !in s[..n]
    ensures n < |s| ==> s[n] == p
    ensures n < |s| <==> p in s
  {
    if s == [] || s[0] == p then 0 else 1 + IndexOf(s[1..], p)
  }

  /** How many references pass before `p` is used; `|future|` when it never is. */
  function NextUse(future: seq<int>, p: int): (n: nat)
  {
    IndexOf(future, p)
  }

  /** The first of the `n` oldest slots whose page is used last (never used counts as last of all). */
  function FurthestAmong(q: seq<int>, future: seq<int>, n: nat): (v: nat)
    requires 1 <= n <= |q|
    ensures v < n
    ensures forall u :: 0 <= u < n ==> NextUse(future, q[u]) <= NextUse(future, q[v])
    ensures forall u :: 0 <= u < v ==> NextUse(future, q[u]) < NextUse(future, q[v])
  {
    if n == 1 then 0 else
    var v := FurthestAmong(q, future, n - 1);
    if NextUse(future, q[v]) < NextUse(future, q[n - 1]) then n - 1 else v
  }

  /** The slot a policy gives up when all frames are taken. */
  function Victim(pol: Policy, q: seq<int>, future: seq<int>): (v: nat)
    requires q != []
    ensures v < |q|
  {
    if pol.Opt? then FurthestAmong(q, future, |q|) else 0
  }

  /** The queue after a reference to `p`, with `k` frames and `future` still to come. */
  function Next(pol: Policy, k: nat, q: seq<int>, p: int, future: seq<int>): (r: seq<int>)
    requires 1 <= k && |q| <= k
    ensures |r| <= k && |r| <= |q| + 1
  {
    if p in q then
      if pol.Lru? then RemoveAt(q, IndexOf(q, p)) + [p] else q
    else if |q| == k then
      RemoveAt(q, Victim(pol, q, future)) + [p]
    else
      q + [p]
  }

  /** The number of page faults from queue `q` on reference string `s`. */
  function Faults(pol: Policy, k: nat, q: seq<int>, s: seq<int>): (n: nat)
    requires 1 <= k && |q| <= k
    decreases s
  {
    if s == [] then 0 else
      (if s[0] in q then 0 else 1) + Faults(pol, k, Next(pol, k, q, s[0], s[1..]), s[1..])
  }

  /** The queue left by reference string `s`. */
  function After(pol: Policy, k: nat, q: seq<int>, s: seq<int>): (r: seq<int>)
    requires 1 <= k && |q| <= k
    ensures |r| <= k
    decreases s
  {
    if s == [] then q else After(pol, k, Next(pol, k, q, s[0], s[1..]), s[1..])
  }

  lemma FaultsHead(pol: Policy, k: nat, q: seq<int>, s: seq<int>)
    requires 1 <= k && |q| <= k && s != []
    ensures Faults(pol, k, q, s)
            == (if s[0] in q then 0 else 1) + Faults(pol, k, Next(pol, k, q, s[0], s[1..]), s[1..])
  {
  }

  lemma RemoveAtElements(q: seq<int>, i: nat)
    requires i < |q| && Distinct(q)
    ensures Distinct(RemoveAt(q, i)) && Elements(RemoveAt(q, i)) == Elements(q) - {q[i]}
  {
    var r := RemoveAt(q, i);
    forall x | x in q && x != q[i]
      ensures x in r
    {
      var j :| 0 <= j < |q| && q[j] == x;
      assert x == if j < i then r[j] else r[j - 1];
    }
  }

  lemma DistinctSize(q: seq<int>)
    requires Distinct(q)
    ensures |Elements(q)| == |q|
  {
    if q != [] {
      var n := |q| - 1;
      DistinctSize(q[..n]);
      assert q == q[..n] + [q[n]];
      assert Elements(q) == Elements(q[..n]) + {q[n]};
    }
  }

  /** The queue policies, written out: a miss drops the oldest page when there is no room. */
  lemma QueueMiss(pol: Policy, k: nat, q: seq<int>, p: int, future: seq<int>)
    requires 1 <= k && |q| <= k && p !in q && !pol.Opt?
    ensures Next(pol, k, q, p, future) == (if |q| == k then q[1..] else q) + [p]
  {
    if |q| == k {
      assert RemoveAt(q, 0) == q[1..];
    }
  }

  lemma LruHit(k: nat, q: seq<int>, p: int, future: seq<int>)
    requires 1 <= k && |q| <= k && p in q
    ensures Next(Lru, k, q, p, future) == RemoveAt(q, IndexOf(q, p)) + [p]
  {
  }

  lemma AppendElements(q: seq<int>, p: int)
    requires Distinct(q) && p !in q
    ensures Distinct(q + [p]) && Elements(q + [p]) == Elements(q) + {p}
  {
  }

  /** What a reference does to the set of resident pages; pages stay distinct. */
  lemma NextElements(pol: Policy, k: nat, q: seq<int>, p: int, future: seq<int>)
    requires 1 <= k && |q| <= k && Distinct(q)
    ensures var r := Next(pol, k, q, p, future);
            && Distinct(r)
            && Elements(r) == (if p !in q && |q| == k
                               then Elements(q) - {q[Victim(pol, q, future)]} else Elements(q)) + {p}
  {
    if p in q && pol.Lru? {
      var i := IndexOf(q, p);
      RemoveAtElements(q, i);
      assert p !in Elements(RemoveAt(q, i));
      AppendElements(RemoveAt(q, i), p);
    } else if p !in q && |q| == k {
      var v := Victim(pol, q, future);
      RemoveAtElements(q, v);
      assert p !in Elements(RemoveAt(q, v));
      AppendElements(RemoveAt(q, v), p);
    } else if p !in q {
      AppendElements(q, p);
    }
  }

  // ---------- arbitrary policies ----------

  /**
   A policy with `k` frames on reference string `s` is nothing but the frame set it holds after each
   reference. It may drop and prefetch pages at will, as long as the referenced page is resident.
   */
  ghost predicate Serves(k: nat, s: seq<int>, frames: seq<set<int>>)
  {
    && |frames| == |s|
    && forall i :: 0 <= i < |s| ==> s[i] in frames[i] && |frames[i]| <= k
  }

  /** The number of pages brought in along `frames`, starting from frame set `start`. */
  ghost function Loads(start: set<int>, frames: seq<set<int>>): (n: nat)
    decreases frames
  {
    if frames == [] then 0 else |frames[0] - start| + Loads(frames[0], frames[1..])
  }

  /** Demand paging: only the referenced page is ever brought in. */
  ghost predicate OnDemand(start: set<int>, s: seq<int>, frames: seq<set<int>>)
    requires |frames| == |s|
    decreases s
  {
    s == [] || (frames[0] <= start + {s[0]} && OnDemand(frames[0], s[1..], frames[1..]))
  }

  /** The number of references that miss. */
  ghost function Misses(start: set<int>, s: seq<int>, frames: seq<set<int>>): (n: nat)
    requires |frames| == |s|
    decreases s
  {
    if s == [] then 0 else
      (if s[0] in start then 0 else 1) + Misses(frames[0], s[1..], frames[1..])
  }

  /** For a demand-paging policy, pages loaded and references missed are the same count. */
  lemma {:induction false} LoadsAreMisses(k: nat, start: set<int>, s: seq<int>, frames: seq<set<int>>)
    requires Serves(k, s, frames) && OnDemand(start, s, frames)
    ensures Loads(start, frames) == Misses(start, s, frames)
    decreases s
  {
    if s != [] {
      assert frames[0] <= start + {s[0]} && s[0] in frames[0];
      assert frames[0] - start == if s[0] in start then {} else {s[0]};
      LoadsAreMisses(k, frames[0], s[1..], frames[1..]);
    }
  }

  lemma ServesCons(k: nat, p: int, first: set<int>, s: seq<int>, frames: seq<set<int>>)
    requires Serves(k, s, frames) && p in first && |first| <= k
    ensures Serves(k, [p] + s, [first] + frames)
  {
  }

  /** A reference brings in the referenced page, and only on a miss. */
  lemma NextLoads(pol: Policy, k: nat, q: seq<int>, p: int, future: seq<int>)
    requires 1 <= k && |q| <= k && Distinct(q)
    ensures var r := Next(pol, k, q, p, future);
            && Distinct(r) && p in Elements(r) && |Elements(r)| <= k
            && Elements(r) - Elements(q) == if p in q then {} else {p}
  {
    hide Next;
    NextElements(pol, k, q, p, future);
    DistinctSize(Next(pol, k, q, p, future));
  }

  /** Every simulated policy is such a policy, paying one load per fault. */
  lemma {:induction false} PolicyFrames(pol: Policy, k: nat, q: seq<int>, s: seq<int>) returns (frames: seq<set<int>>)
    requires 1 <= k && |q| <= k && Distinct(q)
    ensures Serves(k, s, frames)
    ensures Loads(Elements(q), frames) == Faults(pol, k, q, s)
    decreases s
  {
    hide Next;
    hide Serves;
    if s == [] {
      frames := [];
      ServesNothing(k);
    } else {
      var r := Next(pol, k, q, s[0], s[1..]);
      NextLoads(pol, k, q, s[0], s[1..]);
      var rest := PolicyFrames(pol, k, r, s[1..]);
      frames := [Elements(r)] + rest;
      assert frames[1..] == rest;
      ServesCons(k, s[0], Elements(r), s[1..], rest);
      assert s == [s[0]] + s[1..];
    }
  }

  lemma ServesNothing(k: nat)
    ensures Serves(k, [], [])
  {
  }
}
