/**
 CLOCK as an in-place circular buffer of pages with use bits and a hand, the scan cost of a whole run,
 and its place among all policies.
 */
module PagingClock {
  import opened Basics
  import opened Paging
  import PagingOptimality

  datatype Clock = Clock(pages: seq<int>, bits: seq<bool>, hand: nat)

  const EMPTY := Clock([], [], 0)

  ghost predicate Ticking(k: nat, c: Clock)
  {
    && 1 <= k && |c.pages| == |c.bits| <= k && Distinct(c.pages)
    && c.hand < k && (|c.pages| < k ==> c.hand == 0)
  }

  /** The slot at circular distance `d` from the hand. */
  function Slot(hand: nat, d: nat, k: nat): (i: nat)
    requires hand < k && d <= k
    ensures i < k
  {
    if hand + d < k then hand + d else hand + d - k
  }

  /** The circular distance of slot `i` from the hand. */
  function Distance(hand: nat, i: nat, k: nat): (d: nat)
    requires hand < k && i < k
    ensures d < k && Slot(hand, d, k) == i
  {
    if hand <= i then i - hand else i - hand + k
  }

  /** How far the hand travels, from distance `d` on, before it meets a clear bit; `k` when it meets none. */
  function Sweep(bits: seq<bool>, hand: nat, d: nat): (r: nat)
    requires hand < |bits| && d <= |bits|
    ensures d <= r <= |bits|
    ensures forall e :: d <= e < r ==> bits[Slot(hand, e, |bits|)]
    ensures r < |bits| ==> !bits[Slot(hand, r, |bits|)]
    decreases |bits| - d
  {
    if d == |bits| || !bits[Slot(hand, d, |bits|)] then d else Sweep(bits, hand, d + 1)
  }

  /** The hand passes over `d` slots and clears them one by one: those are clear, the others as before. */
  function Cleared(bits: seq<bool>, hand: nat, d: nat): (r: seq<bool>)
    requires hand < |bits| && d <= |bits|
    ensures |r| == |bits|
    ensures forall e :: 0 <= e < d ==> !r[Slot(hand, e, |bits|)]
    ensures forall e :: d <= e < |bits| ==> r[Slot(hand, e, |bits|)] == bits[Slot(hand, e, |bits|)]
  {
    if d == 0 then bits else Cleared(bits, hand, d - 1)[Slot(hand, d - 1, |bits|) := false]
  }

  /** The cleared bits slot by slot. */
  lemma ClearedAt(bits: seq<bool>, hand: nat, d: nat)
    requires hand < |bits| && d <= |bits|
    ensures forall i :: 0 <= i < |bits| ==>
              Cleared(bits, hand, d)[i] == (bits[i] && d <= Distance(hand, i, |bits|))
  {
    forall i | 0 <= i < |bits|
      ensures Cleared(bits, hand, d)[i] == (bits[i] && d <= Distance(hand, i, |bits|))
    {
      assert Slot(hand, Distance(hand, i, |bits|), |bits|) == i;
    }
  }

  function Next(k: nat, c: Clock, p: int): (r: Clock)
    requires Ticking(k, c)
  {
    if p in c.pages then
      c.(bits := c.bits[IndexOf(c.pages, p) := true])
    else if |c.pages| < k then
      Clock(c.pages + [p], c.bits + [false], 0)
    else
      var d := Sweep(c.bits, c.hand, 0);
      var v := Slot(c.hand, d, k);
      Clock(c.pages[v := p], Cleared(c.bits, c.hand, d)[v := false], if v == k - 1 then 0 else v + 1)
  }

  /** How many use bits a reference to `p` reads. */
  function Examined(k: nat, c: Clock, p: int): (n: nat)
    requires Ticking(k, c)
  {
    if p in c.pages || |c.pages| < k then 0 else
    var d := Sweep(c.bits, c.hand, 0);
    if d == k then k else d + 1
  }

  lemma ReplaceElements(q: seq<int>, v: nat, p: int)
    requires Distinct(q) && v < |q| && p !in q
    ensures Distinct(q[v := p]) && Elements(q[v := p]) == Elements(q) - {q[v]} + {p}
  {
    var r := q[v := p];
    forall x | x in q && x != q[v]
      ensures x in r
    {
      var j :| 0 <= j < |q| && q[j] == x;
      assert r[j] == x;
    }
    assert r[v] == p;
  }

  /** Pages stay distinct and the hand in range; a reference drops at most one page. */
  lemma NextTicking(k: nat, c: Clock, p: int)
    requires Ticking(k, c)
    ensures Ticking(k, Next(k, c, p))
    ensures p in Next(k, c, p).pages
    ensures Elements(Next(k, c, p).pages) - Elements(c.pages) == if p in c.pages then {} else {p}
  {
    if p in c.pages {
    } else if |c.pages| < k {
      AppendElements(c.pages, p);
      assert (c.pages + [p])[|c.pages|] == p;
    } else {
      var v := Slot(c.hand, Sweep(c.bits, c.hand, 0), k);
      ReplaceElements(c.pages, v, p);
      assert c.pages[v := p][v] == p;
    }
  }

  function Faults(k: nat, c: Clock, s: seq<int>): (n: nat)
    requires Ticking(k, c)
    decreases s
  {
    if s == [] then 0 else
      NextTicking(k, c, s[0]);
      (if s[0] in c.pages then 0 else 1) + Faults(k, Next(k, c, s[0]), s[1..])
  }

  /** The buffer left by reference string `s`. */
  function After(k: nat, c: Clock, s: seq<int>): (r: Clock)
    requires Ticking(k, c)
    ensures Ticking(k, r)
    decreases s
  {
    if s == [] then c else
      NextTicking(k, c, s[0]);
      After(k, Next(k, c, s[0]), s[1..])
  }

  function TotalExamined(k: nat, c: Clock, s: seq<int>): (n: nat)
    requires Ticking(k, c)
    decreases s
  {
    if s == [] then 0 else
      NextTicking(k, c, s[0]);
      Examined(k, c, s[0]) + TotalExamined(k, Next(k, c, s[0]), s[1..])
  }

  // ---------- scan cost ----------

  ghost function Ones(bits: seq<bool>): (r: set<int>)
  {
    set i | 0 <= i < |bits| && bits[i]
  }

  /** Passing over `d` set bits clears exactly `d` bits. */
  lemma {:induction false} ClearedOnes(bits: seq<bool>, hand: nat, d: nat)
    requires hand < |bits| && d <= |bits|
    requires forall e :: 0 <= e < d ==> bits[Slot(hand, e, |bits|)]
    ensures |Ones(Cleared(bits, hand, d))| == |Ones(bits)| - d
  {
    if d > 0 {
      ClearedOnes(bits, hand, d - 1);
      var i := Slot(hand, d - 1, |bits|);
      var before, after := Ones(Cleared(bits, hand, d - 1)), Ones(Cleared(bits, hand, d));
      assert i in before;
      assert after == before - {i};
    }
  }

  lemma EvictionScan(bits: seq<bool>, hand: nat)
    requires hand < |bits|
    ensures var d := Sweep(bits, hand, 0);
            d + |Ones(Cleared(bits, hand, d)[Slot(hand, d, |bits|) := false])| <= |Ones(bits)|
  {
    var d := Sweep(bits, hand, 0);
    var v := Slot(hand, d, |bits|);
    var after := Cleared(bits, hand, d);
    ClearedOnes(bits, hand, d);
    assert Ones(after[v := false]) == Ones(after) - {v};
  }

  /** Every bit read either ends the scan or clears a bit that some earlier hit had set. */
  lemma ScanStep(k: nat, c: Clock, p: int)
    requires Ticking(k, c)
    ensures Examined(k, c, p) + |Ones(Next(k, c, p).bits)| <= |Ones(c.bits)| + 1
  {
    if p in c.pages {
      var i := IndexOf(c.pages, p);
      assert Ones(c.bits[i := true]) == Ones(c.bits) + {i};
    } else if |c.pages| < k {
      assert Ones(c.bits + [false]) == Ones(c.bits);
    } else {
      EvictionScan(c.bits, c.hand);
    }
  }

  lemma {:induction false} ScanFrom(k: nat, c: Clock, s: seq<int>)
    requires Ticking(k, c)
    ensures TotalExamined(k, c, s) <= |Ones(c.bits)| + |s|
    decreases s
  {
    if s != [] {
      NextTicking(k, c, s[0]);
      ScanStep(k, c, s[0]);
      ScanFrom(k, Next(k, c, s[0]), s[1..]);
    }
  }

  /** Over a whole run the eviction scans read at most one use bit per reference. */
  lemma ScanCost(k: nat, s: seq<int>)
    requires 1 <= k
    ensures TotalExamined(k, EMPTY, s) <= |s|
  {
    ScanFrom(k, EMPTY, s);
    assert Ones([]) == {};
  }

  // ---------- CLOCK as a policy ----------

  lemma {:induction false} ClockFrames(k: nat, c: Clock, s: seq<int>) returns (frames: seq<set<int>>)
    requires Ticking(k, c)
    ensures Serves(k, s, frames)
    ensures Loads(Elements(c.pages), frames) == Faults(k, c, s)
    decreases s
  {
    if s == [] {
      frames := [];
    } else {
      NextTicking(k, c, s[0]);
      var r := Next(k, c, s[0]);
      DistinctSize(r.pages);
      var rest := ClockFrames(k, r, s[1..]);
      frames := [Elements(r.pages)] + rest;
      assert frames[1..] == rest;
      ServesCons(k, s[0], Elements(r.pages), s[1..], rest);
      assert s == [s[0]] + s[1..];
    }
  }

  /** OPT never faults more often than CLOCK. */
  lemma OptBeatsClock(k: nat, s: seq<int>)
    requires 1 <= k
    ensures Paging.Faults(Opt, k, [], s) <= Faults(k, EMPTY, s)
  {
    var frames := ClockFrames(k, EMPTY, s);
    assert Elements([]) == {};
    PagingOptimality.OptIsOptimal(k, s, frames);
  }
}
