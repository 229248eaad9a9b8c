/**
 CLOCK faults at most `2 * k - 1` times as often as OPT with the same `k` frames.

 The reference string is cut into phases of at most `k` different pages. OPT pays at least one fault for every
 phase after the first. CLOCK's hand makes at most two turns in a phase before all pages left from before are
 gone, and on two full turns at least one step only clears a bit, so it faults at most `2 * k - 1` times.
 */
module ClockRatio {
  import opened Basics
  import opened Paging
  import opened Counting
  import opened Products
  import C = PagingClock

  // ---------- phases ----------

  /** How many phases begin in `s`, where `phase` are the pages of the current one so far. */
  ghost function Phases(k: nat, phase: set<int>, s: seq<int>): (n: nat)
    decreases s
  {
    if s == [] then 0
    else if s[0] in phase || |phase| < k then Phases(k, phase + {s[0]}, s[1..])
    else 1 + Phases(k, {s[0]}, s[1..])
  }

  /** OPT has paid in this phase, or it holds all its pages and the next phase will cost it a fault. */
  lemma {:induction false} OptPays(k: nat, q: seq<int>, phase: set<int>, s: seq<int>)
    requires 1 <= k && |q| <= k && Distinct(q)
    ensures Faults(Opt, k, q, s) + (if phase <= Elements(q) then 0 else 1) >= Phases(k, phase, s)
    decreases s
  {
    if s != [] {
      var x, rest := s[0], s[1..];
      var q' := Next(Opt, k, q, x, rest);
      NextElements(Opt, k, q, x, rest);
      assert x in q ==> q' == q;
      assert x in Elements(q');
      hide Next, Distinct;
      if x in phase || |phase| < k {
        OptPays(k, q', phase + {x}, rest);
      } else {
        OptPays(k, q', {x}, rest);
        if phase <= Elements(q) {
          FullPhase(k, q, phase, x);
        }
      }
    }
  }

  lemma FullPhase(k: nat, q: seq<int>, phase: set<int>, x: int)
    requires |q| <= k <= |phase| && Distinct(q) && phase <= Elements(q) && x !in phase
    ensures x !in q
  {
    DistinctSize(q);
    if x in q {
      SubsetCount(phase + {x}, Elements(q));
    }
  }

  // ---------- what the hand has still to do ----------

  /** How many steps the hand makes before it is at slot `i` and finds its bit clear. */
  function Steps(k: nat, c: C.Clock, i: nat): (n: nat)
    requires c.hand < k && i < k == |c.bits|
  {
    C.Distance(c.hand, i, k) + if c.bits[i] then k else 0
  }

  ghost predicate Full(k: nat, c: C.Clock)
  {
    C.Ticking(k, c) && |c.pages| == k
  }

  ghost predicate Foreign(k: nat, c: C.Clock, phase: set<int>, i: nat)
    requires Full(k, c) && i < k
  {
    c.pages[i] !in phase
  }

  /** Some page from before this phase has its bit set. */
  ghost predicate Shielded(k: nat, c: C.Clock, phase: set<int>)
    requires Full(k, c)
  {
    exists i :: 0 <= i < k && Foreign(k, c, phase, i) && c.bits[i]
  }

  /** `r` more faults see all pages from before this phase gone. */
  ghost predicate Affords(k: nat, c: C.Clock, phase: set<int>, r: int)
    requires Full(k, c)
  {
    forall i :: 0 <= i < k && Foreign(k, c, phase, i) ==>
      Steps(k, c, i) < r + if Shielded(k, c, phase) then 1 else 0
  }

  lemma NewPhase(k: nat, c: C.Clock, x: int)
    requires Full(k, c)
    ensures Affords(k, c, {x}, 2 * k - 1)
  {
  }

  lemma JoinPhase(k: nat, c: C.Clock, phase: set<int>, r: int, x: int)
    requires Full(k, c) && Affords(k, c, phase, r)
    ensures Affords(k, c, phase + {x}, r)
  {
    var more := phase + {x};
    forall i | 0 <= i < k && Foreign(k, c, more, i)
      ensures Steps(k, c, i) < r + if Shielded(k, c, more) then 1 else 0
    {
      assert Foreign(k, c, phase, i);
      if Shielded(k, c, phase) && !Shielded(k, c, more) {
        var j :| 0 <= j < k && Foreign(k, c, phase, j) && c.bits[j];
        assert !c.bits[i];
      }
    }
  }

  /** A hit sets the bit of a page of the phase. */
  lemma HitAffords(k: nat, c: C.Clock, phase: set<int>, r: int, x: int)
    requires Full(k, c) && Affords(k, c, phase, r) && x in c.pages && x in phase
    ensures Full(k, C.Next(k, c, x)) && Affords(k, C.Next(k, c, x), phase, r)
  {
    var c' := C.Next(k, c, x);
    C.NextTicking(k, c, x);
    assert forall i :: 0 <= i < k ==> Foreign(k, c', phase, i) == Foreign(k, c, phase, i);
    assert forall i :: 0 <= i < k && Foreign(k, c, phase, i) ==> c'.bits[i] == c.bits[i];
    if Shielded(k, c, phase) {
      var j :| 0 <= j < k && Foreign(k, c, phase, j) && c.bits[j];
      assert Foreign(k, c', phase, j) && c'.bits[j];
    }
  }

  /** Where the hand goes in a fault, and what it leaves. */
  lemma FaultState(k: nat, c: C.Clock, x: int)
    requires Full(k, c) && x !in c.pages
    ensures var d := C.Sweep(c.bits, c.hand, 0); var v := C.Slot(c.hand, d, k); var c' := C.Next(k, c, x);
            && Full(k, c') && c'.pages == c.pages[v := x] && c'.hand == (if v == k - 1 then 0 else v + 1)
            && (forall i :: 0 <= i < k && i != v ==> c'.bits[i] == (c.bits[i] && d <= C.Distance(c.hand, i, k)))
            && (forall i :: 0 <= i < k && C.Distance(c.hand, i, k) < d ==> c.bits[i])
            && (d < k ==> !c.bits[v])
  {
    C.NextTicking(k, c, x);
    var d := C.Sweep(c.bits, c.hand, 0);
    C.ClearedAt(c.bits, c.hand, d);
    forall i | 0 <= i < k && C.Distance(c.hand, i, k) < d
      ensures c.bits[i]
    {
      assert C.Slot(c.hand, C.Distance(c.hand, i, k), k) == i;
    }
  }

  /** Every other slot is `d + 1` steps closer to its end, where `d` bits were cleared. */
  lemma FaultSteps(k: nat, c: C.Clock, x: int, i: nat)
    requires Full(k, c) && x !in c.pages && i < k && i != C.Slot(c.hand, C.Sweep(c.bits, c.hand, 0), k)
    ensures Full(k, C.Next(k, c, x))
    ensures Steps(k, C.Next(k, c, x), i) == Steps(k, c, i) - C.Sweep(c.bits, c.hand, 0) - 1
  {
    FaultState(k, c, x);
    hide C.Next, C.Sweep;
  }

  /** A fault with pages from before the phase left uses up one of the faults afforded. */
  lemma FaultAffords(k: nat, c: C.Clock, phase: set<int>, r: int, x: int)
    requires Full(k, c) && Affords(k, c, phase, r) && x !in c.pages && x in phase
    ensures Full(k, C.Next(k, c, x)) && Affords(k, C.Next(k, c, x), phase, r - 1)
  {
    FaultState(k, c, x);
    var d := C.Sweep(c.bits, c.hand, 0);
    var v := C.Slot(c.hand, d, k);
    var c' := C.Next(k, c, x);
    hide C.Next, C.Sweep;
    ShieldLost(k, c, c', phase, v, d);
    forall i | 0 <= i < k && Foreign(k, c', phase, i)
      ensures Steps(k, c', i) < r - 1 + if Shielded(k, c', phase) then 1 else 0
    {
      assert i != v && Foreign(k, c, phase, i);
      FaultSteps(k, c, x, i);
    }
  }

  /** If no page from before keeps its bit, the sweep cleared one. */
  lemma ShieldLost(k: nat, c: C.Clock, c': C.Clock, phase: set<int>, v: nat, d: nat)
    requires Full(k, c) && Full(k, c') && v < k && d <= k
    requires forall i :: 0 <= i < k && i != v ==> c'.pages[i] == c.pages[i]
    requires forall i :: 0 <= i < k && i != v ==> c'.bits[i] == (c.bits[i] && d <= C.Distance(c.hand, i, k))
    requires d < k ==> !c.bits[v]
    ensures Shielded(k, c, phase) && !Shielded(k, c', phase) ==> d >= 1
  {
    if Shielded(k, c, phase) && d == 0 {
      var j :| 0 <= j < k && Foreign(k, c, phase, j) && c.bits[j];
      assert Foreign(k, c', phase, j) && c'.bits[j];
    }
  }

  /** A page of the phase is missing, so some page from before is left, and a fault is still afforded. */
  lemma FaultLeft(k: nat, c: C.Clock, phase: set<int>, r: int, x: int)
    requires Full(k, c) && Affords(k, c, phase, r) && x !in c.pages && x in phase && |phase| <= k
    ensures r >= 1
  {
    SomeForeign(k, c, phase, x);
    var i :| 0 <= i < k && Foreign(k, c, phase, i);
    if Shielded(k, c, phase) {
      var j :| 0 <= j < k && Foreign(k, c, phase, j) && c.bits[j];
    }
  }

  lemma SomeForeign(k: nat, c: C.Clock, phase: set<int>, x: int)
    requires Full(k, c) && x !in c.pages && x in phase && |phase| <= k
    ensures exists i :: 0 <= i < k && Foreign(k, c, phase, i)
  {
    var all := Elements(c.pages);
    DistinctSize(c.pages);
    if forall i :: 0 <= i < k ==> !Foreign(k, c, phase, i) {
      forall y | y in all
        ensures y in phase
      {
        var i :| 0 <= i < k && c.pages[i] == y;
        assert !Foreign(k, c, phase, i);
      }
      SubsetCount(all + {x}, phase);
    }
  }

  // ---------- whole runs ----------

  lemma OneReference(k: nat, c: C.Clock, phase: set<int>, r: int, x: int) returns (r': int)
    requires Full(k, c) && Affords(k, c, phase, r) && r >= 0 && x in phase && |phase| <= k
    ensures Full(k, C.Next(k, c, x)) && Affords(k, C.Next(k, c, x), phase, r') && r' >= 0
    ensures (if x in c.pages then 0 else 1) + r' == r
  {
    hide C.Next, Affords;
    if x in c.pages {
      HitAffords(k, c, phase, r, x);
      r' := r;
    } else {
      FaultLeft(k, c, phase, r, x);
      FaultAffords(k, c, phase, r, x);
      r' := r - 1;
    }
  }

  /** What CLOCK pays in this phase and, for every phase to come, `2 * k - 1` faults. */
  lemma {:induction false} ClockPays(k: nat, c: C.Clock, phase: set<int>, r: int, s: seq<int>)
    requires Full(k, c) && Affords(k, c, phase, r) && r >= 0 && |phase| <= k
    ensures C.Faults(k, c, s) <= r + Times(Phases(k, phase, s), 2 * k - 1)
    decreases s
  {
    hide C.Next, Affords, Times;
    Distribute(0, 0, 2 * k - 1);
    if s != [] {
      var x, rest := s[0], s[1..];
      var r';
      if x in phase || |phase| < k {
        JoinPhase(k, c, phase, r, x);
        r' := OneReference(k, c, phase + {x}, r, x);
        assert |phase + {x}| <= k by { if x in phase { assert phase + {x} == phase; } }
        ClockPays(k, C.Next(k, c, x), phase + {x}, r', rest);
      } else {
        NewPhase(k, c, x);
        r' := OneReference(k, c, {x}, 2 * k - 1, x);
        ClockPays(k, C.Next(k, c, x), {x}, r', rest);
        Distribute(1, Phases(k, {x}, rest), 2 * k - 1);
      }
    }
  }

  /** CLOCK and OPT hold the same pages. */
  ghost predicate Alike(k: nat, c: C.Clock, q: seq<int>)
  {
    C.Ticking(k, c) && |q| == |c.pages| && Distinct(q) && Elements(c.pages) == Elements(q)
  }

  lemma RoomStep(k: nat, c: C.Clock, q: seq<int>, x: int, future: seq<int>)
    requires Alike(k, c, q) && |q| < k
    ensures x in q <==> x in c.pages
    ensures Alike(k, C.Next(k, c, x), Next(Opt, k, q, x, future))
    ensures |Next(Opt, k, q, x, future)| == if x in q then |q| else |q| + 1
  {
    C.NextTicking(k, c, x);
    assert x in q <==> x in Elements(q);
    assert x in c.pages <==> x in Elements(c.pages);
    if x !in q {
      AppendElements(q, x);
      AppendElements(c.pages, x);
    }
  }

  lemma AlikeFacts(k: nat, c: C.Clock, q: seq<int>)
    requires Alike(k, c, q)
    ensures 1 <= k && C.Ticking(k, c) && |q| == |c.pages| <= k
  {
  }

  lemma ClockHead(k: nat, c: C.Clock, s: seq<int>)
    requires C.Ticking(k, c) && s != []
    ensures C.Ticking(k, C.Next(k, c, s[0]))
    ensures C.Faults(k, c, s) == (if s[0] in c.pages then 0 else 1) + C.Faults(k, C.Next(k, c, s[0]), s[1..])
  {
    C.NextTicking(k, c, s[0]);
    hide C.Next;
  }

  /** Until all frames are taken, CLOCK and OPT fault together. */
  lemma {:induction false} WhileRoom(k: nat, c: C.Clock, q: seq<int>, s: seq<int>)
    requires Alike(k, c, q)
    ensures C.Faults(k, c, s) <= Times(Faults(Opt, k, q, s), 2 * k - 1)
    decreases s
  {
    hide *;
    AlikeFacts(k, c, q);
    if s == [] {
      NoFaults(k, c, q);
    } else if |q| == k {
      RoomGone(k, c, q, s);
    } else {
      RoomPays(k, c, q, s);
      RoomStep(k, c, q, s[0], s[1..]);
      WhileRoom(k, C.Next(k, c, s[0]), Next(Opt, k, q, s[0], s[1..]), s[1..]);
    }
  }

  lemma NoFaults(k: nat, c: C.Clock, q: seq<int>)
    requires 1 <= k && C.Ticking(k, c) && |q| <= k
    ensures C.Faults(k, c, []) <= Times(Faults(Opt, k, q, []), 2 * k - 1)
  {
    Distribute(0, 0, 2 * k - 1);
    hide Times;
  }

  /** Both fault or none does. */
  lemma RoomPays(k: nat, c: C.Clock, q: seq<int>, s: seq<int>)
    requires Alike(k, c, q) && |q| < k && s != []
    ensures var c', q' := C.Next(k, c, s[0]), Next(Opt, k, q, s[0], s[1..]);
            && 1 <= k && C.Ticking(k, c) && C.Ticking(k, c')
            && (C.Faults(k, c', s[1..]) <= Times(Faults(Opt, k, q', s[1..]), 2 * k - 1) ==>
                C.Faults(k, c, s) <= Times(Faults(Opt, k, q, s), 2 * k - 1))
  {
    hide *;
    var x, rest := s[0], s[1..];
    var q' := Next(Opt, k, q, x, rest);
    AlikeFacts(k, c, q);
    RoomStep(k, c, q, x, rest);
    ClockHead(k, c, s);
    FaultsHead(Opt, k, q, s);
    Distribute(if x in q then 0 else 1, Faults(Opt, k, q', rest), 2 * k - 1);
  }

  /** All frames taken, and only by pages of the first phase. */
  lemma RoomGone(k: nat, c: C.Clock, q: seq<int>, s: seq<int>)
    requires Alike(k, c, q) && |q| == k
    ensures C.Faults(k, c, s) <= Times(Faults(Opt, k, q, s), 2 * k - 1)
  {
    var phase := Elements(q);
    DistinctSize(q);
    forall i | 0 <= i < k
      ensures !Foreign(k, c, phase, i)
    {
      assert c.pages[i] in Elements(c.pages);
    }
    assert Affords(k, c, phase, 0);
    hide Affords, Times, Elements;
    ClockPays(k, c, phase, 0, s);
    OptPays(k, q, phase, s);
    Scale(Phases(k, phase, s), Faults(Opt, k, q, s), 2 * k - 1);
  }

  /** CLOCK is `2 * k - 1`-competitive against OPT. */
  lemma ClockCompetitive(k: nat, s: seq<int>)
    requires 1 <= k
    ensures C.Faults(k, C.EMPTY, s) <= (2 * k - 1) * Faults(Opt, k, [], s)
  {
    assert Alike(k, C.EMPTY, []);
    hide *;
    WhileRoom(k, C.EMPTY, [], s);
    TimesIs(Faults(Opt, k, [], s), 2 * k - 1);
  }
}
