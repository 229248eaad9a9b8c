/**
 LRU is a stack algorithm: its queue is always the tail end of the recency order of the pages used so far,
 so a larger memory holds everything a smaller one does and never faults more often.
 */
module PagingInclusion {
  import opened Basics
  import opened Paging

  /** The last (newest) `k` elements of `q`, or all of it. */
  function Newest(q: seq<int>, k: nat): (r: seq<int>)
  {
    if |q| <= k then q else q[|q| - k..]
  }

  lemma RemoveFromTail(q: seq<int>, i: nat, cut: nat)
    requires cut <= i < |q|
    ensures RemoveAt(q[cut..], i - cut) == RemoveAt(q, i)[cut..]
  {
  }

  lemma FirstIndex(q: seq<int>, p: int, i: nat)
    requires Distinct(q) && i < |q| && q[i] == p
    ensures IndexOf(q, p) == i
  {
  }

  lemma NewestAfterHit(core: seq<int>, p: int, k: nat, cut: nat)
    requires cut <= |core| && |core| + 1 - cut <= k && (cut == 0 || |core| + 1 - cut == k)
    ensures Newest(core + [p], k) == core[cut..] + [p]
  {
  }

  lemma HitInside(q: seq<int>, k: nat, p: int, i: nat)
    requires Distinct(q) && i < |q| && q[i] == p && |q| - |Newest(q, k)| <= i
    ensures p in Newest(q, k)
    ensures RemoveAt(Newest(q, k), IndexOf(Newest(q, k), p)) + [p] == Newest(RemoveAt(q, i) + [p], k)
  {
    hide IndexOf;
    var small := Newest(q, k);
    var cut := |q| - |small|;
    FirstIndex(small, p, i - cut);
    RemoveFromTail(q, i, cut);
    NewestAfterHit(RemoveAt(q, i), p, k, cut);
  }

  lemma HitOutside(q: seq<int>, k: nat, p: int, i: nat)
    requires 1 <= k && Distinct(q) && i < |q| && q[i] == p && i < |q| - |Newest(q, k)|
    ensures p !in Newest(q, k) && |Newest(q, k)| == k
    ensures Newest(q, k)[1..] + [p] == Newest(RemoveAt(q, i) + [p], k)
  {
    var cut := |q| - k;
    assert RemoveAt(q, i)[cut..] == q[cut + 1..];
    NewestAfterHit(RemoveAt(q, i), p, k, cut);
  }

  lemma InclusionHit(k: nat, big: nat, q: seq<int>, p: int, future: seq<int>)
    requires 1 <= k <= big && |q| <= big && Distinct(q) && p in q
    ensures Next(Lru, k, Newest(q, k), p, future) == Newest(Next(Lru, big, q, p, future), k)
  {
    hide IndexOf;
    hide Next;
    var small := Newest(q, k);
    var i := IndexOf(q, p);
    LruHit(big, q, p, future);
    if i >= |q| - |small| {
      HitInside(q, k, p, i);
      LruHit(k, small, p, future);
    } else {
      HitOutside(q, k, p, i);
      QueueMiss(Lru, k, small, p, future);
    }
  }

  /** A miss in the larger queue: both drop their oldest page if full. */
  lemma MissTails(k: nat, big: nat, q: seq<int>, p: int)
    requires 1 <= k <= big && |q| <= big
    ensures var small := Newest(q, k);
            (if |small| == k then small[1..] else small) + [p]
            == Newest((if |q| == big then q[1..] else q) + [p], k)
  {
    var small := Newest(q, k);
    if |q| < k {
    } else if |q| < big {
      NewestAfterHit(q, p, k, |q| + 1 - k);
      assert small[1..] == q[|q| + 1 - k..];
    } else {
      NewestAfterHit(q[1..], p, k, |q| - k);
      assert small[1..] == q[1..][|q| - k..];
    }
  }

  lemma InclusionMiss(k: nat, big: nat, q: seq<int>, p: int, future: seq<int>)
    requires 1 <= k <= big && |q| <= big && p !in q
    ensures Next(Lru, k, Newest(q, k), p, future) == Newest(Next(Lru, big, q, p, future), k)
  {
    hide Next;
    assert p !in Newest(q, k);
    QueueMiss(Lru, big, q, p, future);
    QueueMiss(Lru, k, Newest(q, k), p, future);
    MissTails(k, big, q, p);
  }

  /** One reference keeps the smaller queue the tail end of the larger. */
  lemma InclusionStep(k: nat, big: nat, q: seq<int>, p: int, future: seq<int>)
    requires 1 <= k <= big && |q| <= big && Distinct(q)
    ensures Next(Lru, k, Newest(q, k), p, future) == Newest(Next(Lru, big, q, p, future), k)
  {
    if p in q {
      InclusionHit(k, big, q, p, future);
    } else {
      InclusionMiss(k, big, q, p, future);
    }
  }

  lemma {:induction false} InclusionFrom(k: nat, big: nat, q: seq<int>, s: seq<int>)
    requires 1 <= k <= big && |q| <= big && Distinct(q)
    ensures After(Lru, k, Newest(q, k), s) == Newest(After(Lru, big, q, s), k)
    ensures Faults(Lru, big, q, s) <= Faults(Lru, k, Newest(q, k), s)
    decreases s
  {
    if s != [] {
      InclusionStep(k, big, q, s[0], s[1..]);
      NextElements(Lru, big, q, s[0], s[1..]);
      assert s[0] in Newest(q, k) ==> s[0] in q;
      InclusionFrom(k, big, Next(Lru, big, q, s[0], s[1..]), s[1..]);
    }
  }

  /** With more frames LRU holds everything it would hold with fewer, and never faults more often. */
  lemma LruInclusion(k: nat, big: nat, s: seq<int>)
    requires 1 <= k <= big
    ensures After(Lru, k, [], s) == Newest(After(Lru, big, [], s), k)
    ensures Faults(Lru, big, [], s) <= Faults(Lru, k, [], s)
  {
    InclusionFrom(k, big, [], s);
  }

  // ---------- what the LRU queue holds ----------

  /** The position of the last use of `p`; `-1` when it was never used. */
  function LastUse(s: seq<int>, p: int): (n: int)
    ensures -1 <= n < |s|
    ensures n >= 0 ==> s[n] == p
    ensures forall i :: n < i < |s| ==> s[i] != p
  {
    if s == [] then -1 else
    if s[|s| - 1] == p then |s| - 1 else LastUse(s[..|s| - 1], p)
  }

  /** `r` lists the pages of `s`, each once, from the least to the most recently used. */
  ghost predicate RecencyOrder(r: seq<int>, s: seq<int>)
  {
    && Elements(r) == Elements(s)
    && forall i, j :: 0 <= i < j < |r| ==> LastUse(s, r[i]) < LastUse(s, r[j])
  }

  /** With a frame for every reference nothing is ever evicted. */
  lemma {:induction false} UnboundedIsRecency(k: nat, q: seq<int>, done: seq<int>, s: seq<int>)
    requires 1 <= k && |q| + |s| <= k
    requires RecencyOrder(q, done)
    ensures RecencyOrder(After(Lru, k, q, s), done + s)
    decreases s
  {
    if s == [] {
      assert done + s == done;
    } else {
      RecencyStep(k, q, done, s[0], s[1..]);
      UnboundedIsRecency(k, Next(Lru, k, q, s[0], s[1..]), done + [s[0]], s[1..]);
      assert done + [s[0]] + s[1..] == done + s;
    }
  }

  lemma LastUseSnoc(s: seq<int>, p: int, x: int)
    ensures LastUse(s + [p], x) == if x == p then |s| else LastUse(s, x)
  {
    assert (s + [p])[..|s|] == s;
  }

  lemma RecencyDistinct(q: seq<int>, s: seq<int>)
    requires RecencyOrder(q, s)
    ensures Distinct(q)
  {
    forall i, j | 0 <= i < j < |q|
      ensures q[i] != q[j]
    {
      assert LastUse(s, q[i]) < LastUse(s, q[j]);
    }
  }

  lemma RecencyStep(k: nat, q: seq<int>, done: seq<int>, p: int, future: seq<int>)
    requires |q| < k && RecencyOrder(q, done)
    ensures RecencyOrder(Next(Lru, k, q, p, future), done + [p])
    ensures |Next(Lru, k, q, p, future)| <= |q| + 1
  {
    var r := Next(Lru, k, q, p, future);
    RecencyDistinct(q, done);
    NextElements(Lru, k, q, p, future);
    NextLast(k, q, p, future);
    hide Next;
    assert Elements(done + [p]) == Elements(done) + {p};
    var n := |r| - 1;
    forall i, j | 0 <= i < j < |r|
      ensures LastUse(done + [p], r[i]) < LastUse(done + [p], r[j])
    {
      LastUseSnoc(done, p, r[i]);
      LastUseSnoc(done, p, r[j]);
      hide LastUse, Elements, Distinct;
      RecentBefore(q, done, r[..n], p, i, j);
    }
  }

  /** The referenced page is last; the others keep their order. */
  lemma NextLast(k: nat, q: seq<int>, p: int, future: seq<int>)
    requires |q| < k && Distinct(q)
    ensures var r := Next(Lru, k, q, p, future); var n := |r| - 1;
            && r != [] && r[n] == p && p !in r[..n]
            && r[..n] == (if p in q then RemoveAt(q, IndexOf(q, p)) else q)
  {
    var r := Next(Lru, k, q, p, future);
    assert r[..|r| - 1] == if p in q then RemoveAt(q, IndexOf(q, p)) else q;
    if p in q {
      RemoveAtElements(q, IndexOf(q, p));
      assert p !in Elements(RemoveAt(q, IndexOf(q, p)));
    }
  }

  lemma RecentBefore(q: seq<int>, done: seq<int>, core: seq<int>, p: int, i: nat, j: nat)
    requires RecencyOrder(q, done) && core == (if p in q then RemoveAt(q, IndexOf(q, p)) else q)
    requires i < j <= |core|
    ensures j < |core| ==> LastUse(done, core[i]) < LastUse(done, core[j])
    ensures LastUse(done, core[i]) < |done|
  {
    hide LastUse, IndexOf;
  }

  /** After any reference string the LRU queue holds exactly the `k` most recently used pages, oldest first. */
  lemma LruIsMostRecent(k: nat, s: seq<int>) returns (r: seq<int>)
    requires 1 <= k
    ensures RecencyOrder(r, s)
    ensures After(Lru, k, [], s) == Newest(r, k)
  {
    var big := k + |s|;
    UnboundedIsRecency(big, [], [], s);
    assert [] + s == s;
    r := After(Lru, big, [], s);
    LruInclusion(k, big, s);
  }
}
