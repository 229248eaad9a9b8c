/**
 What the use bits and the hand of CLOCK mean: a bit is set exactly when its page was hit and the hand has not come
 to its slot since, and the hand is right behind the page loaded last.
 */
module ClockBits {
  import opened Basics
  import opened Paging
  import C = PagingClock

  lemma {:induction false} AfterSnoc(k: nat, c: C.Clock, s: seq<int>, x: int)
    requires C.Ticking(k, c)
    ensures C.After(k, c, s + [x]) == C.Next(k, C.After(k, c, s), x)
    decreases s
  {
    hide C.Next;
    if s == [] {
      assert s + [x] == [x];
      C.NextTicking(k, c, x);
      AfterNothing(k, C.Next(k, c, x));
    } else {
      C.NextTicking(k, c, s[0]);
      assert (s + [x])[0] == s[0] && (s + [x])[1..] == s[1..] + [x];
      AfterSnoc(k, C.Next(k, c, s[0]), s[1..], x);
    }
  }

  lemma AfterNothing(k: nat, c: C.Clock)
    requires C.Ticking(k, c)
    ensures C.After(k, c, []) == c
  {
  }

  /** The buffer after the first `t` references. */
  function At(k: nat, s: seq<int>, t: nat): (c: C.Clock)
    requires 1 <= k && t <= |s|
    ensures C.Ticking(k, c)
  {
    C.After(k, C.EMPTY, s[..t])
  }

  /** A reference to `x` does not bring the hand to slot `i`. */
  ghost predicate Passes(k: nat, c: C.Clock, x: int, i: nat)
    requires C.Ticking(k, c) && i < |c.pages|
  {
    x in c.pages || |c.pages| < k || C.Distance(c.hand, i, k) > C.Sweep(c.bits, c.hand, 0)
  }

  /** Reference `t` hits the page in slot `i`, and the hand does not come to that slot afterwards. */
  ghost predicate HitSince(k: nat, s: seq<int>, t: nat, i: nat)
    requires 1 <= k && t < |s|
  {
    && i < |At(k, s, t).pages| && s[t] == At(k, s, t).pages[i]
    && forall u :: t < u < |s| ==> i < |At(k, s, u).pages| && Passes(k, At(k, s, u), s[u], i)
  }

  /** What one reference does to one bit. */
  lemma OneBit(k: nat, c: C.Clock, x: int, i: nat)
    requires C.Ticking(k, c) && i < |C.Next(k, c, x).pages|
    ensures |C.Next(k, c, x).bits| == |C.Next(k, c, x).pages|
    ensures C.Next(k, c, x).bits[i] <==>
              i < |c.pages| && (c.pages[i] == x || (c.bits[i] && Passes(k, c, x, i)))
  {
    if x in c.pages {
      assert c.pages[IndexOf(c.pages, x)] == x;
    } else if |c.pages| == k {
      C.ClearedAt(c.bits, c.hand, C.Sweep(c.bits, c.hand, 0));
    }
  }

  lemma SamePast(k: nat, s: seq<int>, x: int, t: nat)
    requires 1 <= k && t <= |s|
    ensures At(k, s + [x], t) == At(k, s, t)
  {
    assert (s + [x])[..t] == s[..t];
  }

  lemma HitSinceSnoc(k: nat, s: seq<int>, x: int, t: nat, i: nat)
    requires 1 <= k && t < |s|
    ensures HitSince(k, s + [x], t, i) <==>
              HitSince(k, s, t, i) && i < |At(k, s, |s|).pages| && Passes(k, At(k, s, |s|), x, i)
  {
    hide Passes, At;
    forall u | 0 <= u <= |s|
      ensures At(k, s + [x], u) == At(k, s, u)
    {
      SamePast(k, s, x, u);
    }
    assert (s + [x])[|s|] == x;
    assert forall u :: 0 <= u < |s| ==> (s + [x])[u] == s[u];
    if HitSince(k, s + [x], t, i) {
      assert forall u :: t < u < |s| ==> i < |At(k, s + [x], u).pages| && Passes(k, At(k, s + [x], u), (s + [x])[u], i);
    }
  }

  /** After every reference string: a bit is set exactly when its page was hit since the hand last came by. */
  lemma {:induction false} BitMeaning(k: nat, s: seq<int>, i: nat)
    requires 1 <= k && i < |C.After(k, C.EMPTY, s).pages|
    ensures C.After(k, C.EMPTY, s).bits[i] <==> exists t :: 0 <= t < |s| && HitSince(k, s, t, i)
    decreases |s|
  {
    if s != [] {
      var n := |s| - 1;
      var r, x := s[..n], s[n];
      assert s == r + [x];
      AfterSnoc(k, C.EMPTY, r, x);
      var c := C.After(k, C.EMPTY, r);
      assert r[..n] == r && At(k, r, n) == c;
      OneBit(k, c, x, i);
      SamePast(k, r, x, n);
      forall t | 0 <= t < n
        ensures HitSince(k, s, t, i) <==> HitSince(k, r, t, i) && i < |c.pages| && Passes(k, c, x, i)
      {
        HitSinceSnoc(k, r, x, t, i);
      }
      assert HitSince(k, s, n, i) <==> i < |c.pages| && x == c.pages[i];
      hide C.Next, C.After, HitSince, Passes;
      if i < |c.pages| {
        BitMeaning(k, r, i);
      }
    }
  }

  /** In particular every hit leaves the bit of its page set. */
  lemma HitSets(k: nat, s: seq<int>, i: nat)
    requires 1 <= k && i < |C.After(k, C.EMPTY, s).pages|
    ensures var c := C.After(k, C.EMPTY, s + [C.After(k, C.EMPTY, s).pages[i]]);
            i < |c.pages| && c.pages[i] == C.After(k, C.EMPTY, s).pages[i] && c.bits[i]
  {
    var c := C.After(k, C.EMPTY, s);
    AfterSnoc(k, C.EMPTY, s, c.pages[i]);
    OneBit(k, c, c.pages[i], i);
  }

  // ---------- the hand and the victim ----------

  /** The last page of a string that had to be loaded. */
  function LastLoaded(k: nat, s: seq<int>): (p: Option<int>)
    requires 1 <= k
    decreases |s|
  {
    if s == [] then None else
      var n := |s| - 1;
      if s[n] in C.After(k, C.EMPTY, s[..n]).pages then LastLoaded(k, s[..n]) else Some(s[n])
  }

  lemma HandNext(k: nat, c: C.Clock, x: int)
    requires C.Ticking(k, c) && |C.Next(k, c, x).pages| == k
    ensures C.Ticking(k, C.Next(k, c, x))
    ensures var r := C.Next(k, c, x); var i := C.Slot(r.hand, k - 1, k);
            if x in c.pages then |c.pages| == k && r.hand == c.hand && r.pages == c.pages else r.pages[i] == x
  {
    C.NextTicking(k, c, x);
  }

  /** After every string that fills the buffer the hand is right behind the page loaded last. */
  lemma {:induction false} HandBehindLast(k: nat, s: seq<int>)
    requires 1 <= k && |C.After(k, C.EMPTY, s).pages| == k
    ensures var c := C.After(k, C.EMPTY, s);
            c.hand < k && LastLoaded(k, s) == Some(c.pages[C.Slot(c.hand, k - 1, k)])
    decreases |s|
  {
    if s != [] {
      var n := |s| - 1;
      assert s == s[..n] + [s[n]];
      AfterSnoc(k, C.EMPTY, s[..n], s[n]);
      var c := C.After(k, C.EMPTY, s[..n]);
      HandNext(k, c, s[n]);
      hide C.Next, C.After;
      if s[n] in c.pages {
        HandBehindLast(k, s[..n]);
      }
    }
  }

  /** The bit of slot `v` is clear, and all others from the hand on up to it are set. */
  ghost predicate FirstClear(c: C.Clock, v: nat)
    requires c.hand < |c.bits| && v < |c.bits|
  {
    var k := |c.bits|;
    !c.bits[v] && forall i :: 0 <= i < k && C.Distance(c.hand, i, k) < C.Distance(c.hand, v, k) ==> c.bits[i]
  }

  /**
   A fault with a full buffer replaces the page in the first slot from the hand on whose bit is clear, or, when all
   are set, the one the hand is at; every other page stays where it is.
   */
  lemma VictimIs(k: nat, s: seq<int>, p: int) returns (v: nat)
    requires 1 <= k && |C.After(k, C.EMPTY, s).pages| == k && p !in C.After(k, C.EMPTY, s).pages
    ensures var c := C.After(k, C.EMPTY, s);
            && c.hand < k == |c.bits| && v < k && C.After(k, C.EMPTY, s + [p]).pages == c.pages[v := p]
            && if forall i :: 0 <= i < k ==> c.bits[i] then v == c.hand else FirstClear(c, v)
  {
    AfterSnoc(k, C.EMPTY, s, p);
    var c := C.After(k, C.EMPTY, s);
    hide C.After;
    v := Replaced(k, c, p);
  }

  lemma Replaced(k: nat, c: C.Clock, p: int) returns (v: nat)
    requires C.Ticking(k, c) && |c.pages| == k && p !in c.pages
    ensures v < k && C.Next(k, c, p).pages == c.pages[v := p]
    ensures if forall i :: 0 <= i < k ==> c.bits[i] then v == c.hand else FirstClear(c, v)
  {
    var d := C.Sweep(c.bits, c.hand, 0);
    v := C.Slot(c.hand, d, k);
    forall i | 0 <= i < k && C.Distance(c.hand, i, k) < d
      ensures c.bits[i]
    {
      assert C.Slot(c.hand, C.Distance(c.hand, i, k), k) == i;
    }
  }
}
