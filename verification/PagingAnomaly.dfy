/**
 When more frames can make FIFO fault more often: Belady's anomaly between `k` and `big` frames exists
 exactly for `k < big < 2 * k - 1`.

 For `big >= 2 * k - 1` the proof marks the pages of the smaller queue that came in while the larger one
 held them. A page that is not marked stays in the larger queue for as long as it is in the smaller one, so a
 fault of the larger queue alone always uses up the mark of an earlier fault of the smaller queue alone.
 */
module PagingAnomaly {
  import opened Basics
  import opened Paging
  import opened Counting
  import PagingInclusion

  // ---------- pages that came in after a given one ----------

  ghost function Newer(q: seq<int>, p: int): (r: set<int>)
  {
    if p in q then Elements(q[IndexOf(q, p) + 1..]) else {}
  }

  lemma NewerAt(q: seq<int>, i: nat)
    requires Distinct(q) && i < |q|
    ensures Newer(q, q[i]) == Elements(q[i + 1..])
  {
    assert IndexOf(q, q[i]) == i;
  }

  lemma {:induction false} NewerAppend(q: seq<int>, p: int, x: int)
    requires Distinct(q) && p in q && x !in q
    ensures Newer(q + [x], p) == Newer(q, p) + {x}
  {
    var i := IndexOf(q, p);
    assert Distinct(q + [x]);
    NewerAt(q, i);
    NewerAt(q + [x], i);
    assert (q + [x])[i + 1..] == q[i + 1..] + [x];
  }

  lemma NewerDrop(q: seq<int>, p: int)
    requires Distinct(q) && p in q && q[0] != p
    ensures p in q[1..] && Newer(q[1..], p) == Newer(q, p)
  {
    var i := IndexOf(q, p);
    NewerAt(q, i);
    assert q[1..][i - 1] == p;
    NewerAt(q[1..], i - 1);
    assert q[1..][i..] == q[i + 1..];
  }

  lemma NewerThanOldest(q: seq<int>)
    requires Distinct(q) && q != []
    ensures |Newer(q, q[0])| == |q| - 1
  {
    NewerAt(q, 0);
    DistinctSize(q[1..]);
  }

  // ---------- the invariant ----------

  /** Page `i` of the smaller queue is in the larger one; of the pages newer there only few are gone here. */
  ghost predicate Kept(k: nat, q: seq<int>, b: seq<int>, i: nat)
    requires i < |q|
  {
    q[i] in b && |Newer(b, q[i]) - Elements(q)| <= k - 1 - i
  }

  ghost predicate Marked(k: nat, big: nat, q: seq<int>, b: seq<int>, m: set<int>)
  {
    && |q| <= k && |b| <= big && Distinct(q) && Distinct(b) && m <= Elements(q)
    && forall i :: 0 <= i < |q| && q[i] !in m ==> Kept(k, q, b, i)
  }

  lemma SplitCount(a: set<int>, b: set<int>)
    ensures |a| == |a - b| + |a * b|
  {
    assert a == (a - b) + (a * b);
  }

  /** Of the pages newer than the oldest one, at least so many are not in the smaller queue. */
  lemma NewerThanOldestGone(q: seq<int>, b: seq<int>, x: int)
    requires Distinct(q) && Distinct(b) && b != [] && b[0] in q && x !in b
    ensures |Newer(b, b[0]) - Elements(q)| >= |b| - |q| + if x in q then 1 else 0
  {
    var newer, here := Newer(b, b[0]), Elements(q);
    NewerThanOldest(b);
    NewerAt(b, 0);
    DistinctSize(q);
    SplitCount(newer, here);
    SubsetCount(newer * here, if x in q then here - {b[0]} - {x} else here - {b[0]});
  }

  /** The oldest page of a full larger queue is not one the smaller queue will keep. */
  lemma OldestIsNotKept(k: nat, big: nat, q: seq<int>, b: seq<int>, x: int, i: nat)
    requires Distinct(q) && Distinct(b) && |q| <= k && |b| == big && big >= 2 * k - 1 && big >= 1
    requires i < |q| && Kept(k, q, b, i) && x !in b
    requires x in q || |q| < k || i > 0
    ensures q[i] != b[0]
  {
    if q[i] == b[0] {
      NewerThanOldestGone(q, b, x);
    }
  }

  // ---------- one reference ----------

  function Push(k: nat, q: seq<int>, p: int): (r: seq<int>)
  {
    (if |q| == k then if q == [] then [] else q[1..] else q) + [p]
  }

  lemma PushElements(k: nat, q: seq<int>, p: int)
    requires 1 <= k && |q| <= k && Distinct(q) && p !in q
    ensures var r := Push(k, q, p);
            && |r| <= k && Distinct(r)
            && Elements(r) == (if |q| == k then Elements(q) - {q[0]} else Elements(q)) + {p}
  {
    if |q| == k {
      RemoveAtElements(q, 0);
      assert RemoveAt(q, 0) == q[1..];
      AppendElements(q[1..], p);
    } else {
      AppendElements(q, p);
    }
  }

  /** In the larger queue, a page that stays keeps its newer pages and gains the one that comes in. */
  lemma NewerPush(big: nat, b: seq<int>, p: int, x: int)
    requires 1 <= big && |b| <= big && Distinct(b) && p !in b && x in b && (|b| == big ==> x != b[0])
    ensures x in Push(big, b, p) && Newer(Push(big, b, p), x) == Newer(b, x) + {p}
  {
    if |b| == big {
      NewerDrop(b, x);
      NewerAppend(b[1..], x, p);
    } else {
      NewerAppend(b, x, p);
    }
  }

  /** What the smaller queue gives up makes room in the bound. */
  lemma KeptInPush(k: nat, q: seq<int>, p: int, newer: set<int>, i: nat)
    requires 1 <= k && |q| <= k && Distinct(q) && p !in q && i < |q| && |newer - Elements(q)| <= k - 1 - i
    requires |q| == k ==> i > 0
    ensures var j := if |q| == k then i - 1 else i;
            |newer - Elements(Push(k, q, p))| <= k - 1 - j && |newer + {p} - Elements(Push(k, q, p))| <= k - 1 - j
  {
    PushElements(k, q, p);
    var here, r := Elements(q), Elements(Push(k, q, p));
    hide Elements, Push, Distinct;
    assert newer + {p} - r == newer - r;
    if |q| == k {
      SubsetCount(newer - r, newer - here + {q[0]});
    } else {
      SubsetCount(newer - r, newer - here);
    }
  }

  lemma SmallFault(k: nat, big: nat, q: seq<int>, b: seq<int>, m: set<int>, p: int)
    requires 1 <= k && Marked(k, big, q, b, m) && p !in q && p in b
    ensures var r := Push(k, q, p); Marked(k, big, r, b, m * Elements(r) + {p})
  {
    var r := Push(k, q, p);
    PushElements(k, q, p);
    var m' := m * Elements(r) + {p};
    forall j | 0 <= j < |r| && r[j] !in m'
      ensures Kept(k, r, b, j)
    {
      var i := if |q| == k then j + 1 else j;
      assert i < |q| && r[j] == q[i];
      assert r[j] in Elements(r);
      assert Kept(k, q, b, i);
      KeptInPush(k, q, p, Newer(b, q[i]), i);
    }
  }

  lemma BigFault(k: nat, big: nat, q: seq<int>, b: seq<int>, m: set<int>, p: int)
    requires 1 <= k && Marked(k, big, q, b, m) && big >= 2 * k - 1 && p in q && p !in b
    ensures p in m && Marked(k, big, q, Push(big, b, p), m - {p})
  {
    var c := Push(big, b, p);
    PushElements(big, b, p);
    var at := IndexOf(q, p);
    assert q[at] == p;
    forall i | 0 <= i < |q| && q[i] !in m - {p}
      ensures Kept(k, q, c, i)
    {
      if q[i] == p {
        NewestHasNoneNewer(c);
      } else {
        BigFaultKept(k, big, q, b, p, i);
      }
    }
  }

  lemma NewestHasNoneNewer(c: seq<int>)
    requires c != [] && Distinct(c)
    ensures Newer(c, c[|c| - 1]) == {}
  {
    NewerAt(c, |c| - 1);
  }

  lemma BigFaultKept(k: nat, big: nat, q: seq<int>, b: seq<int>, p: int, i: nat)
    requires 1 <= k && |q| <= k && |b| <= big && Distinct(q) && Distinct(b) && big >= 2 * k - 1
    requires p in q && p !in b && i < |q| && Kept(k, q, b, i)
    ensures Kept(k, q, Push(big, b, p), i)
  {
    if |b| == big {
      OldestIsNotKept(k, big, q, b, p, i);
    }
    NewerPush(big, b, p, q[i]);
    hide Newer, Push, Distinct;
    assert p in Elements(q);
    assert Newer(b, q[i]) + {p} - Elements(q) == Newer(b, q[i]) - Elements(q);
  }

  lemma BothFault(k: nat, big: nat, q: seq<int>, b: seq<int>, m: set<int>, p: int)
    requires 1 <= k && Marked(k, big, q, b, m) && big >= 2 * k - 1 && p !in q && p !in b
    ensures var r := Push(k, q, p); Marked(k, big, r, Push(big, b, p), m * Elements(r))
  {
    var r, c := Push(k, q, p), Push(big, b, p);
    PushElements(k, q, p);
    PushElements(big, b, p);
    forall j | 0 <= j < |r| && r[j] !in m * Elements(r)
      ensures Kept(k, r, c, j)
    {
      if r[j] == p {
        assert j == |r| - 1 && c[|c| - 1] == p;
        NewestHasNoneNewer(c);
      } else {
        var i := if |q| == k then j + 1 else j;
        assert i < |q| && r[j] == q[i] && r[j] in Elements(r);
        BothFaultKept(k, big, q, b, p, i);
      }
    }
  }

  lemma BothFaultKept(k: nat, big: nat, q: seq<int>, b: seq<int>, p: int, i: nat)
    requires 1 <= k && |q| <= k && |b| <= big && Distinct(q) && Distinct(b) && big >= 2 * k - 1
    requires p !in q && p !in b && i < |q| && Kept(k, q, b, i) && (|q| == k ==> i > 0)
    ensures var j := if |q| == k then i - 1 else i;
            j < |Push(k, q, p)| && Push(k, q, p)[j] == q[i] && Kept(k, Push(k, q, p), Push(big, b, p), j)
  {
    if |b| == big {
      OldestIsNotKept(k, big, q, b, p, i);
    }
    NewerPush(big, b, p, q[i]);
    KeptInPush(k, q, p, Newer(b, q[i]), i);
    hide Newer, Elements, Distinct;
  }

  lemma FifoNext(k: nat, q: seq<int>, p: int, future: seq<int>)
    requires 1 <= k && |q| <= k
    ensures Next(Fifo, k, q, p, future) == if p in q then q else Push(k, q, p)
  {
    if p !in q {
      QueueMiss(Fifo, k, q, p, future);
    }
  }

  /** A fault of the larger queue, and the marks left, are paid by a fault of the smaller queue and its marks. */
  lemma MarkedNext(k: nat, big: nat, q: seq<int>, b: seq<int>, m: set<int>, p: int, future: seq<int>)
    returns (m': set<int>)
    requires 1 <= k <= big && big >= 2 * k - 1 && Marked(k, big, q, b, m)
    ensures Marked(k, big, Next(Fifo, k, q, p, future), Next(Fifo, big, b, p, future), m')
    ensures (if p in b then 0 else 1) + |m'| <= (if p in q then 0 else 1) + |m|
  {
    FifoNext(k, q, p, future);
    FifoNext(big, b, p, future);
    var r := Elements(Push(k, q, p));
    if p in q && p in b {
      m' := m;
    } else if p in q {
      BigFault(k, big, q, b, m, p);
      m' := m - {p};
    } else if p in b {
      SmallFault(k, big, q, b, m, p);
      m' := m * r + {p};
      SubsetCount(m * r, m);
    } else {
      BothFault(k, big, q, b, m, p);
      m' := m * r;
      SubsetCount(m', m);
    }
  }

  lemma {:induction false} MonotoneFrom(k: nat, big: nat, q: seq<int>, b: seq<int>, m: set<int>, s: seq<int>)
    requires 1 <= k <= big && big >= 2 * k - 1 && Marked(k, big, q, b, m)
    ensures Faults(Fifo, big, b, s) <= Faults(Fifo, k, q, s) + |m|
    decreases s
  {
    if s != [] {
      hide Marked, Next;
      var p, future := s[0], s[1..];
      var m' := MarkedNext(k, big, q, b, m, p, future);
      MarkedBounds(k, big, Next(Fifo, k, q, p, future), Next(Fifo, big, b, p, future), m');
      MarkedBounds(k, big, q, b, m);
      MonotoneFrom(k, big, Next(Fifo, k, q, p, future), Next(Fifo, big, b, p, future), m', future);
    }
  }

  lemma MarkedBounds(k: nat, big: nat, q: seq<int>, b: seq<int>, m: set<int>)
    requires Marked(k, big, q, b, m)
    ensures |q| <= k && |b| <= big
  {
  }

  /** With at least `2 * k - 1` frames FIFO never faults more often than with `k`. */
  lemma FifoMonotone(k: nat, big: nat, s: seq<int>)
    requires 1 <= k <= big && (big == k || big >= 2 * k - 1)
    ensures Faults(Fifo, big, [], s) <= Faults(Fifo, k, [], s)
  {
    if big != k {
      MonotoneFrom(k, big, [], [], {}, s);
    }
  }

  // ---------- the anomaly ----------

  /** Between two references to the same page lie at least `k` others. */
  ghost predicate Apart(w: seq<int>, k: nat)
  {
    forall i, j :: 0 <= i < j < |w| && j - i <= k ==> w[i] != w[j]
  }

  /** A full queue and a run of references none of which it holds: all fault, and the queue slides over them. */
  lemma {:induction false} MissRun(k: nat, q: seq<int>, s: seq<int>, rest: seq<int>)
    requires 1 <= k == |q| && Apart(q + s, k)
    ensures |(q + s)[|s|..]| == k
    ensures Faults(Fifo, k, q, s + rest) == |s| + Faults(Fifo, k, (q + s)[|s|..], rest)
    decreases s
  {
    if s == [] {
      assert q + s == q && s + rest == rest;
    } else {
      var p, r := s[0], q[1..] + [s[0]];
      forall i | 0 <= i < k
        ensures q[i] != p
      {
        assert (q + s)[i] == q[i] && (q + s)[k] == p;
      }
      assert (s + rest)[0] == p && (s + rest)[1..] == s[1..] + rest;
      FifoNext(k, q, p, s[1..] + rest);
      assert r + s[1..] == (q + s)[1..];
      assert (r + s[1..])[|s| - 1..] == (q + s)[|s|..];
      MissRun(k, r, s[1..], rest);
    }
  }

  /** Different pages that fit into the free frames all fault and are kept. */
  lemma {:induction false} FillRun(k: nat, q: seq<int>, s: seq<int>, rest: seq<int>)
    requires 1 <= k && |q + s| <= k && Distinct(q + s)
    ensures Faults(Fifo, k, q, s + rest) == |s| + Faults(Fifo, k, q + s, rest)
    decreases s
  {
    if s == [] {
      assert q + s == q && s + rest == rest;
    } else {
      var p := s[0];
      forall i | 0 <= i < |q|
        ensures q[i] != p
      {
        assert (q + s)[i] == q[i] && (q + s)[|q|] == p;
      }
      assert (s + rest)[0] == p && (s + rest)[1..] == s[1..] + rest;
      FifoNext(k, q, p, s[1..] + rest);
      assert q + [p] + s[1..] == q + s;
      FillRun(k, q + [p], s[1..], rest);
    }
  }

  lemma {:induction false} HitRun(k: nat, q: seq<int>, s: seq<int>, rest: seq<int>)
    requires 1 <= k && |q| <= k && forall i :: 0 <= i < |s| ==> s[i] in q
    ensures Faults(Fifo, k, q, s + rest) == Faults(Fifo, k, q, rest)
    decreases s
  {
    if s == [] {
      assert s + rest == rest;
    } else {
      assert (s + rest)[0] == s[0] && (s + rest)[1..] == s[1..] + rest;
      FifoNext(k, q, s[0], s[1..] + rest);
      HitRun(k, q, s[1..], rest);
    }
  }

  /** The pages from `lo` up to and without `hi`. */
  function Range(lo: nat, hi: nat): (r: seq<int>)
    ensures |r| == (if lo <= hi then hi - lo else 0) && forall i :: 0 <= i < |r| ==> r[i] == lo + i
  {
    seq(if lo <= hi then hi - lo else 0, i => lo + i)
  }

  /** All pages but one, the first `k - 1` again, the last page, and then all in turn. */
  function Anomaly(k: nat, big: nat): (s: seq<int>)
  {
    Range(1, big + 1) + Range(1, k) + [big + 1] + Range(1, big + 1) + [big + 1]
  }

  lemma AnomalySmall(k: nat, big: nat)
    requires k < big < 2 * k - 1
    ensures Faults(Fifo, k, [], Anomaly(k, big)) == 2 * big + 1
  {
    hide *;
    var last := [big + 1];
    var q1, second := Range(1, k) + last, Range(k, big + 1);
    SmallParts(k, big);
    SmallText(k, big);
    Phases(k, Range(1, k + 1), Range(k + 1, big + 1) + Range(1, k) + last, q1, Range(1, k), second,
           (q1 + second)[|second|..], last);
  }

  /** Fill, slide, hit, slide, hit. */
  lemma Phases(k: nat, fill: seq<int>, first: seq<int>, q1: seq<int>, again: seq<int>, second: seq<int>,
               q2: seq<int>, last: seq<int>)
    requires 1 <= k == |fill| && |q1| == k && Distinct([] + fill)
    requires Apart(fill + first, k) && (fill + first)[|first|..] == q1
    requires Apart(q1 + second, k) && (q1 + second)[|second|..] == q2
    requires (forall i :: 0 <= i < |again| ==> again[i] in q1) && forall i :: 0 <= i < |last| ==> last[i] in q2
    ensures Faults(Fifo, k, [], fill + (first + (again + (second + (last + [])))))
            == |fill| + |first| + |second|
  {
    assert [] + fill == fill;
    hide *;
    var r4 := last + [];
    var r3 := second + r4;
    var r2 := again + r3;
    FillRun(k, [], fill, first + r2);
    MissRun(k, fill, first, r2);
    HitRun(k, q1, again, r3);
    MissRun(k, q1, second, r4);
    HitRun(k, q2, last, []);
    NoFaults(k, q2);
  }

  lemma NoFaults(k: nat, q: seq<int>)
    requires 1 <= k && |q| <= k
    ensures Faults(Fifo, k, q, []) == 0
  {
  }

  lemma SmallParts(k: nat, big: nat)
    requires k < big < 2 * k - 1
    ensures var fill, last := Range(1, k + 1), [big + 1];
            var first := Range(k + 1, big + 1) + Range(1, k) + last;
            var again, second := Range(1, k), Range(k, big + 1);
            var q1 := Range(1, k) + last;
            && |fill| == k >= 1 && Distinct([] + fill) && |first| == big && |second| == big - k + 1 && |q1| == k
            && Apart(fill + first, k) && (fill + first)[|first|..] == q1
            && (forall i :: 0 <= i < |again| ==> again[i] in q1)
            && Apart(q1 + second, k) && last[0] in (q1 + second)[|second|..]
  {
    RangeSizes(k, big);
    hide *;
    var last := [big + 1];
    RangeSplit(1, k + 1, big + 1);
    FirstWindow(k, big);
    SecondWindow(k, big);
    Slide(Range(1, k + 1), Range(k + 1, big + 1), Range(1, k), last);
    InPrefix(Range(1, k), last);
  }

  lemma Slide(a: seq<int>, b: seq<int>, c: seq<int>, last: seq<int>)
    requires |a| == |c| + |last|
    ensures a + (b + c + last) == a + b + c + last
    ensures (a + (b + c + last))[|b + c + last|..] == c + last
  {
  }

  /** The string cut as the smaller queue meets it. */
  lemma SmallText(k: nat, big: nat)
    requires 1 <= k < big
    ensures var first := Range(k + 1, big + 1) + Range(1, k) + [big + 1];
            Anomaly(k, big)
            == Range(1, k + 1) + (first + (Range(1, k) + (Range(k, big + 1) + ([big + 1] + []))))
  {
    hide *;
    RangeSplit(1, k + 1, big + 1);
    RangeSplit(1, k, big + 1);
    AnomalyIs(k, big);
    Regroup(Range(1, k + 1), Range(k + 1, big + 1), Range(1, k), Range(k, big + 1), [big + 1]);
  }

  lemma RangeSizes(k: nat, big: nat)
    requires 1 <= k < big
    ensures |Range(1, k + 1)| == k && Distinct([] + Range(1, k + 1)) && |Range(1, k)| == k - 1
    ensures |Range(k + 1, big + 1)| == big - k && |Range(k, big + 1)| == big - k + 1
  {
  }

  lemma AnomalyIs(k: nat, big: nat)
    ensures Anomaly(k, big) == Range(1, big + 1) + Range(1, k) + [big + 1] + Range(1, big + 1) + [big + 1]
  {
  }

  lemma InPrefix(a: seq<int>, b: seq<int>)
    ensures forall i :: 0 <= i < |a| ==> a[i] in a + b
  {
    forall i | 0 <= i < |a|
      ensures a[i] in a + b
    {
      assert (a + b)[i] == a[i];
    }
  }

  lemma Regroup(a: seq<int>, b: seq<int>, c: seq<int>, d: seq<int>, last: seq<int>)
    requires a + b == c + d
    ensures a + b + c + last + (a + b) + last == a + ((b + c + last) + (c + (d + (last + []))))
  {
  }

  lemma RangeSplit(lo: nat, mid: nat, hi: nat)
    requires lo <= mid <= hi
    ensures Range(lo, hi) == Range(lo, mid) + Range(mid, hi)
  {
  }

  lemma FirstWindow(k: nat, big: nat)
    requires 1 <= k < big
    ensures Apart(Range(1, big + 1) + Range(1, k) + [big + 1], k)
  {
    var w := Range(1, big + 1) + Range(1, k) + [big + 1];
    forall i | 0 <= i < |w|
      ensures w[i] == if i < big then 1 + i else if i < big + k - 1 then 1 + i - big else big + 1
    {
    }
    hide Range;
  }

  lemma SecondWindow(k: nat, big: nat)
    requires k < big < 2 * k - 1
    ensures var w := Range(1, k) + [big + 1] + Range(k, big + 1);
            Apart(w, k) && big + 1 in w[big - k + 1..]
  {
    var w := Range(1, k) + [big + 1] + Range(k, big + 1);
    forall i | 0 <= i < |w|
      ensures w[i] == if i < k - 1 then 1 + i else if i == k - 1 then big + 1 else i
    {
    }
    hide Range;
    assert w[big - k + 1..][k - 1 - (big - k + 1)] == w[k - 1];
  }

  lemma CycleWindow(big: nat)
    ensures Apart(Range(1, big + 1) + ([big + 1] + Range(1, big + 1) + [big + 1]), big)
  {
    var w := Range(1, big + 1) + ([big + 1] + Range(1, big + 1) + [big + 1]);
    forall i | 0 <= i < |w|
      ensures w[i] == if i <= big then 1 + i else i - big
    {
    }
    hide Range;
  }

  lemma BigText(a: seq<int>, b: seq<int>, last: seq<int>)
    ensures a + b + last + a + last == a + (b + ((last + a + last) + []))
  {
  }

  lemma AnomalyBig(k: nat, big: nat)
    requires 1 <= k < big
    ensures Faults(Fifo, big, [], Anomaly(k, big)) == 2 * big + 2
  {
    var fill, again := Range(1, big + 1), Range(1, k);
    var run := [big + 1] + Range(1, big + 1) + [big + 1];
    CycleWindow(big);
    forall i | 0 <= i < |again|
      ensures again[i] in fill
    {
      assert fill[i] == again[i];
    }
    assert Distinct([] + fill);
    assert [] + fill == fill && |fill| == big && |run| == big + 2;
    hide *;
    AnomalyIs(k, big);
    BigText(fill, again, [big + 1]);
    FillRun(big, [], fill, again + (run + []));
    HitRun(big, fill, again, run + []);
    MissRun(big, fill, run, []);
    NoFaults(big, (fill + run)[|run|..]);
  }

  /**
   FIFO's faults never increase from `k` to `big` frames, on any reference string, if and only if the larger
   memory is the same size or has at least `2 * k - 1` frames.
   */
  lemma FifoMonotoneExactly(k: nat, big: nat)
    requires 1 <= k <= big
    ensures (forall s :: Faults(Fifo, big, [], s) <= Faults(Fifo, k, [], s)) <==> big == k || big >= 2 * k - 1
  {
    if big == k || big >= 2 * k - 1 {
      forall s
        ensures Faults(Fifo, big, [], s) <= Faults(Fifo, k, [], s)
      {
        FifoMonotone(k, big, s);
      }
    } else {
      AnomalySmall(k, big);
      AnomalyBig(k, big);
    }
  }

  // ---------- what FIFO holds ----------

  /** The pages brought in by FIFO, in the order of the faults. */
  function BroughtIn(k: nat, s: seq<int>): (r: seq<int>)
    requires 1 <= k
    decreases |s|
  {
    if s == [] then [] else
      var n := |s| - 1;
      BroughtIn(k, s[..n]) + if s[n] in After(Fifo, k, [], s[..n]) then [] else [s[n]]
  }

  lemma {:induction false} FifoSnoc(k: nat, q: seq<int>, s: seq<int>, x: int)
    requires 1 <= k && |q| <= k
    ensures var r := After(Fifo, k, q, s);
            && After(Fifo, k, q, s + [x]) == (if x in r then r else Push(k, r, x))
            && Faults(Fifo, k, q, s + [x]) == Faults(Fifo, k, q, s) + if x in r then 0 else 1
    decreases s
  {
    if s == [] {
      assert s + [x] == [x];
      FifoNext(k, q, x, []);
      hide Next;
    } else {
      assert (s + [x])[0] == s[0] && (s + [x])[1..] == s[1..] + [x];
      FifoNext(k, q, s[0], s[1..]);
      FifoNext(k, q, s[0], s[1..] + [x]);
      hide Next;
      FifoSnoc(k, Next(Fifo, k, q, s[0], s[1..]), s[1..], x);
    }
  }

  /** After any reference string the FIFO queue holds exactly the `k` pages brought in last, oldest first. */
  lemma {:induction false} FifoIsLastBroughtIn(k: nat, s: seq<int>)
    requires 1 <= k
    ensures After(Fifo, k, [], s) == PagingInclusion.Newest(BroughtIn(k, s), k)
    ensures |BroughtIn(k, s)| == Faults(Fifo, k, [], s)
    decreases |s|
  {
    hide *;
    if s == [] {
      NothingBroughtIn(k);
    } else {
      var n := |s| - 1;
      FifoIsLastBroughtIn(k, s[..n]);
      FifoSnoc(k, [], s[..n], s[n]);
      BroughtInNext(k, s);
      assert s == s[..n] + [s[n]] && BroughtIn(k, s[..n]) + [] == BroughtIn(k, s[..n]);
      NewestPush(k, BroughtIn(k, s[..n]), s[n]);
    }
  }

  lemma NothingBroughtIn(k: nat)
    requires 1 <= k
    ensures BroughtIn(k, []) == [] == After(Fifo, k, [], []) == PagingInclusion.Newest([], k)
    ensures Faults(Fifo, k, [], []) == 0
  {
  }

  lemma BroughtInNext(k: nat, s: seq<int>)
    requires 1 <= k && s != []
    ensures var n := |s| - 1;
            BroughtIn(k, s)
            == BroughtIn(k, s[..n]) + if s[n] in After(Fifo, k, [], s[..n]) then [] else [s[n]]
  {
    hide After;
  }

  lemma NewestPush(k: nat, r: seq<int>, x: int)
    requires 1 <= k
    ensures Push(k, PagingInclusion.Newest(r, k), x) == PagingInclusion.Newest(r + [x], k)
  {
  }
}
