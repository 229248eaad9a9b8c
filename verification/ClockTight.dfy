/**
 No ratio below `2 * k - 1` holds for CLOCK: strings on which it faults `2 * k - 1` times in every phase while
 OPT faults once. A page comes in with its bit clear, so the hand can take it again on its next turn; a single
 set bit on an unwanted page makes every phase last two turns.
 */
module ClockTight {
  import opened Basics
  import opened Paging
  import opened Products
  import opened ClockRatio
  import PagingOptimality
  import C = PagingClock

  // ---------- runs of faults ----------

  /** The pages after the first `i` of `s` took the slots from `h` on. */
  function Taken(pages: seq<int>, h: nat, s: seq<int>, i: nat): (r: seq<int>)
    requires i <= |s| && h + i <= |pages|
    ensures |r| == |pages|
  {
    pages[..h] + s[..i] + pages[h + i..]
  }

  /** A run of missing pages over clear bits replaces one slot after the other. */
  ghost predicate RunOn(k: nat, c: C.Clock, s: seq<int>)
  {
    && Full(k, c) && c.hand + |s| <= k
    && (forall i :: c.hand <= i < c.hand + |s| ==> !c.bits[i])
    && (forall i :: 0 <= i < |s| ==> s[i] !in Taken(c.pages, c.hand, s, i))
  }

  function RunEnd(k: nat, c: C.Clock, s: seq<int>): (r: C.Clock)
    requires c.hand + |s| <= |c.pages|
  {
    C.Clock(Taken(c.pages, c.hand, s, |s|), c.bits,
            if c.hand + |s| == k && s != [] then 0 else c.hand + |s|)
  }

  lemma {:induction false} MissRun(k: nat, c: C.Clock, s: seq<int>, rest: seq<int>)
    requires RunOn(k, c, s)
    ensures Full(k, RunEnd(k, c, s))
    ensures C.Faults(k, c, s + rest) == |s| + C.Faults(k, RunEnd(k, c, s), rest)
    decreases s
  {
    hide *;
    RunNone(k, c, s);
    if s == [] {
      assert s + rest == rest;
    } else {
      RunStep(k, c, s);
      assert (s + rest)[0] == s[0] && (s + rest)[1..] == s[1..] + rest;
      ClockHead(k, c, s + rest);
      MissRun(k, C.Next(k, c, s[0]), s[1..], rest);
    }
  }

  lemma RunNone(k: nat, c: C.Clock, s: seq<int>)
    requires RunOn(k, c, s)
    ensures Full(k, c) && C.Ticking(k, c) && c.hand + |s| <= |c.pages| && (s == [] ==> RunEnd(k, c, s) == c)
  {
    hide Distinct;
  }

  lemma ReplaceAtHand(k: nat, c: C.Clock, x: int)
    requires Full(k, c) && !c.bits[c.hand] && x !in c.pages
    ensures C.Next(k, c, x)
            == C.Clock(c.pages[c.hand := x], c.bits, if c.hand == k - 1 then 0 else c.hand + 1)
  {
    assert C.Sweep(c.bits, c.hand, 0) == 0;
  }

  lemma RunStep(k: nat, c: C.Clock, s: seq<int>)
    requires RunOn(k, c, s) && s != []
    ensures s[0] !in c.pages && RunOn(k, C.Next(k, c, s[0]), s[1..])
    ensures RunEnd(k, C.Next(k, c, s[0]), s[1..]) == RunEnd(k, c, s)
  {
    RunHead(k, c, s);
    ReplaceAtHand(k, c, s[0]);
    C.NextTicking(k, c, s[0]);
    var c' := C.Next(k, c, s[0]);
    assert Full(k, c');
    hide *;
    RunTail(k, c, c', s);
  }

  lemma RunHead(k: nat, c: C.Clock, s: seq<int>)
    requires RunOn(k, c, s) && s != []
    ensures Full(k, c) && c.hand + |s| <= k == |c.pages| && !c.bits[c.hand] && s[0] !in c.pages
  {
    NoneTaken(c.pages, c.hand, s);
    hide Taken;
    assert s[0] !in Taken(c.pages, c.hand, s, 0);
  }

  lemma RunTail(k: nat, c: C.Clock, c': C.Clock, s: seq<int>)
    requires RunOn(k, c, s) && s != [] && Full(k, c')
    requires c' == C.Clock(c.pages[c.hand := s[0]], c.bits, if c.hand == k - 1 then 0 else c.hand + 1)
    ensures RunOn(k, c', s[1..]) && RunEnd(k, c', s[1..]) == RunEnd(k, c, s)
  {
    var h := c.hand;
    hide Distinct, Taken;
    OneTaken(c.pages, h, s, |s| - 1);
    if h + 1 < k {
      forall i | 0 <= i < |s[1..]|
        ensures s[1..][i] !in Taken(c'.pages, c'.hand, s[1..], i)
      {
        OneTaken(c.pages, h, s, i);
        assert s[i + 1] !in Taken(c.pages, h, s, i + 1);
      }
    } else {
      NoneTaken(c'.pages, 0, []);
      NoneTaken(c'.pages, h + 1, []);
    }
  }

  lemma NoneTaken(pages: seq<int>, h: nat, s: seq<int>)
    requires h <= |pages|
    ensures Taken(pages, h, s, 0) == pages
  {
  }

  lemma OneTaken(pages: seq<int>, h: nat, s: seq<int>, i: nat)
    requires s != [] && i < |s| && h + i < |pages|
    ensures Taken(pages[h := s[0]], h + 1, s[1..], i) == Taken(pages, h, s, i + 1)
  {
    assert s[..i + 1] == [s[0]] + s[1..][..i];
    assert pages[h := s[0]][..h + 1] == pages[..h] + [s[0]];
    assert pages[h := s[0]][h + 1 + i..] == pages[h + 1 + i..];
  }

  /** A full buffer with the hand at the first slot, and only the last bit set. */
  ghost predicate Poised(k: nat, c: C.Clock)
  {
    Full(k, c) && c.hand == 0 && forall i :: 0 <= i < k ==> c.bits[i] == (i == k - 1)
  }

  /** The missing page `z` and all pages but the last. */
  function Lap(k: nat, c: C.Clock, z: int): (lap: seq<int>)
    requires 2 <= k == |c.pages|
  {
    [z] + c.pages[..k - 1]
  }

  /** All of them in turn, all but the last of them again, and a hit at the end: one phase. */
  function Hard(k: nat, c: C.Clock, z: int): (s: seq<int>)
    requires 2 <= k == |c.pages|
  {
    var lap := Lap(k, c, z);
    lap[..k - 1] + ([lap[k - 1]] + (lap[..k - 1] + [lap[k - 2]]))
  }

  function HardEnd(k: nat, c: C.Clock, z: int): (r: C.Clock)
    requires 2 <= k == |c.pages|
    ensures |r.pages| == k
  {
    var lap := Lap(k, c, z);
    C.Clock([lap[k - 1]] + lap[..k - 1], c.bits, 0)
  }

  /** The first turn of the hand: all slots but the last are replaced. */
  lemma FirstTurn(k: nat, c: C.Clock, z: int)
    requires 2 <= k && Poised(k, c) && z !in c.pages
    ensures var lap := Lap(k, c, z);
            && RunOn(k, c, lap[..k - 1])
            && RunEnd(k, c, lap[..k - 1]) == C.Clock(lap[..k - 1] + [c.pages[k - 1]], c.bits, k - 1)
  {
    var run := Lap(k, c, z)[..k - 1];
    forall i | 0 <= i < |run|
      ensures run[i] !in Taken(c.pages, 0, run, i)
    {
      if i > 0 {
        assert run[i] == c.pages[i - 1];
      }
    }
  }

  lemma LapFacts(k: nat, c: C.Clock, z: int)
    requires 2 <= k && Full(k, c) && z !in c.pages
    ensures var lap := Lap(k, c, z); |lap| == k && Distinct(lap) && c.pages[k - 1] !in lap
  {
  }

  /** The last bit is cleared and the first slot replaced. */
  lemma PastTheLast(k: nat, c: C.Clock, x: int)
    requires 2 <= k && Full(k, c) && c.hand == k - 1 && x !in c.pages
    requires forall i :: 0 <= i < k ==> c.bits[i] == (i == k - 1)
    ensures C.Next(k, c, x) == C.Clock(c.pages[0 := x], seq(k, _ => false), 1)
  {
    assert C.Sweep(c.bits, c.hand, 1) == 1;
    assert C.Sweep(c.bits, c.hand, 0) == 1;
    C.ClearedAt(c.bits, c.hand, 1);
  }

  /** The second turn replaces the other slots, the last one among them. */
  lemma SecondTurn(k: nat, lap: seq<int>, y: int)
    requires 2 <= k == |lap| && Distinct(lap) && y !in lap
    ensures var c := C.Clock([lap[k - 1]] + lap[1..k - 1] + [y], seq(k, _ => false), 1);
            && RunOn(k, c, lap[..k - 1])
            && RunEnd(k, c, lap[..k - 1]) == C.Clock([lap[k - 1]] + lap[..k - 1], seq(k, _ => false), 0)
  {
    var pages := [lap[k - 1]] + lap[1..k - 1] + [y];
    var run := lap[..k - 1];
    forall i | 0 <= i < k
      ensures pages[i] == if i == 0 then lap[k - 1] else if i < k - 1 then lap[i] else y
    {
    }
    assert Distinct(pages);
    forall i | 0 <= i < |run|
      ensures run[i] !in Taken(pages, 1, run, i)
    {
      TakenAt(pages, 1, run, i);
    }
  }

  lemma TakenAt(pages: seq<int>, h: nat, s: seq<int>, i: nat)
    requires i <= |s| && h + i <= |pages|
    ensures forall j :: 0 <= j < |pages| ==> Taken(pages, h, s, i)[j] == if h <= j < h + i then s[j - h] else pages[j]
  {
  }

  lemma LastHit(k: nat, c: C.Clock)
    requires Full(k, c)
    ensures C.Next(k, c, c.pages[k - 1]) == c.(bits := c.bits[k - 1 := true])
  {
    assert IndexOf(c.pages, c.pages[k - 1]) == k - 1;
  }

  // ---------- one phase ----------

  /** A run of faults, a fault, the same run again, a hit. */
  lemma Chain(k: nat, c: C.Clock, c1: C.Clock, c2: C.Clock, c3: C.Clock, c4: C.Clock,
              run: seq<int>, a: int, b: int, rest: seq<int>)
    requires RunOn(k, c, run) && c.hand + |run| <= |c.pages| && RunEnd(k, c, run) == c1
    requires C.Ticking(k, c) && C.Ticking(k, c1) && C.Ticking(k, c2) && C.Ticking(k, c3)
    requires a !in c1.pages && C.Next(k, c1, a) == c2
    requires RunOn(k, c2, run) && c2.hand + |run| <= |c2.pages| && RunEnd(k, c2, run) == c3
    requires b in c3.pages && C.Next(k, c3, b) == c4
    ensures C.Ticking(k, c4)
    ensures C.Faults(k, c, run + ([a] + (run + ([b] + rest)))) == 2 * |run| + 1 + C.Faults(k, c4, rest)
  {
    hide *;
    var end := [b] + rest;
    var second := [a] + (run + end);
    MissRun(k, c, run, second);
    ClockHead(k, c1, second);
    MissRun(k, c2, run, end);
    ClockHead(k, c3, end);
    assert second[1..] == run + end && end[1..] == rest;
  }

  /** One phase costs `2 * k - 1` faults and leaves the buffer poised again, without the page that was last. */
  lemma HardPhase(k: nat, c: C.Clock, z: int, rest: seq<int>)
    requires 2 <= k && Poised(k, c) && z !in c.pages
    ensures Poised(k, HardEnd(k, c, z)) && c.pages[k - 1] !in HardEnd(k, c, z).pages
    ensures C.Faults(k, c, Hard(k, c, z) + rest) == 2 * k - 1 + C.Faults(k, HardEnd(k, c, z), rest)
  {
    var lap, y := Lap(k, c, z), c.pages[k - 1];
    var run, clear := lap[..k - 1], seq(k, _ => false);
    var c1 := C.Clock(run + [y], c.bits, k - 1);
    var c2 := C.Clock([lap[k - 1]] + lap[1..k - 1] + [y], clear, 1);
    var c3 := C.Clock([lap[k - 1]] + run, clear, 0);
    LapFacts(k, c, z);
    FirstTurn(k, c, z);
    SecondTurn(k, lap, y);
    PhaseStates(k, c, lap, y);
    Middle(k, c1, c2, lap, y);
    LastOfPhase(k, c, c3, lap);
    hide *;
    Chain(k, c, c1, c2, c3, HardEnd(k, c, z), run, lap[k - 1], lap[k - 2], rest);
    HardText(k, c, z, rest);
  }

  lemma PhaseStates(k: nat, c: C.Clock, lap: seq<int>, y: int)
    requires 2 <= k == |lap| && Distinct(lap) && y !in lap && Poised(k, c)
    ensures Full(k, C.Clock(lap[..k - 1] + [y], c.bits, k - 1))
    ensures Full(k, C.Clock([lap[k - 1]] + lap[1..k - 1] + [y], seq(k, _ => false), 1))
    ensures Full(k, C.Clock([lap[k - 1]] + lap[..k - 1], seq(k, _ => false), 0))
    ensures Poised(k, C.Clock([lap[k - 1]] + lap[..k - 1], c.bits, 0)) && y !in [lap[k - 1]] + lap[..k - 1]
  {
    var a, b := lap[..k - 1] + [y], [lap[k - 1]] + lap[1..k - 1] + [y];
    assert forall i :: 0 <= i < k ==> a[i] == if i < k - 1 then lap[i] else y;
    assert forall i :: 0 <= i < k ==> b[i] == if i == 0 then lap[k - 1] else if i < k - 1 then lap[i] else y;
  }

  lemma Middle(k: nat, c1: C.Clock, c2: C.Clock, lap: seq<int>, y: int)
    requires 2 <= k == |lap| && Distinct(lap) && y !in lap && Full(k, c1)
    requires c1.pages == lap[..k - 1] + [y] && c1.hand == k - 1
    requires forall i :: 0 <= i < k ==> c1.bits[i] == (i == k - 1)
    requires c2 == C.Clock([lap[k - 1]] + lap[1..k - 1] + [y], seq(k, _ => false), 1)
    ensures lap[k - 1] !in c1.pages && C.Next(k, c1, lap[k - 1]) == c2
  {
    PastTheLast(k, c1, lap[k - 1]);
    assert c1.pages[0 := lap[k - 1]] == c2.pages;
  }

  lemma LastOfPhase(k: nat, c: C.Clock, c3: C.Clock, lap: seq<int>)
    requires 2 <= k == |lap| && Full(k, c3) && Poised(k, c)
    requires c3 == C.Clock([lap[k - 1]] + lap[..k - 1], seq(k, _ => false), 0)
    ensures lap[k - 2] in c3.pages
    ensures C.Next(k, c3, lap[k - 2]) == C.Clock([lap[k - 1]] + lap[..k - 1], c.bits, 0)
  {
    assert c3.pages[k - 1] == lap[k - 2];
    LastHit(k, c3);
    assert c3.bits[k - 1 := true] == c.bits;
  }

  lemma HardText(k: nat, c: C.Clock, z: int, rest: seq<int>)
    requires 2 <= k == |c.pages|
    ensures var lap := Lap(k, c, z); var run := lap[..k - 1];
            Hard(k, c, z) + rest == run + ([lap[k - 1]] + (run + ([lap[k - 2]] + rest)))
  {
  }

  // ---------- many phases ----------

  /** `n` such phases; the page that was last in one is the missing one of the next. */
  function HardRun(k: nat, c: C.Clock, z: int, n: nat): (s: seq<int>)
    requires 2 <= k == |c.pages|
    decreases n
  {
    if n == 0 then [] else Hard(k, c, z) + HardRun(k, HardEnd(k, c, z), c.pages[k - 1], n - 1)
  }

  lemma PoisedFacts(k: nat, c: C.Clock)
    requires Poised(k, c)
    ensures |c.pages| == k && C.Ticking(k, c)
  {
  }

  lemma HardRunNext(k: nat, c: C.Clock, z: int, n: nat)
    requires 2 <= k == |c.pages|
    ensures n == 0 ==> HardRun(k, c, z, n) == [] && RivalFrames(k, c, z, n) == []
    ensures n > 0 ==>
              var end, y := HardEnd(k, c, z), c.pages[k - 1];
              && HardRun(k, c, z, n) == Hard(k, c, z) + HardRun(k, end, y, n - 1)
              && RivalFrames(k, c, z, n) == Held(Elements(Lap(k, c, z)), 2 * k) + RivalFrames(k, end, y, n - 1)
  {
    hide Hard, HardEnd, Lap, Held;
  }

  lemma ClockNothing(k: nat, c: C.Clock)
    requires C.Ticking(k, c)
    ensures C.Faults(k, c, []) == 0
  {
  }

  lemma {:induction false} HardFaults(k: nat, c: C.Clock, z: int, n: nat)
    requires 2 <= k && Poised(k, c) && z !in c.pages
    ensures C.Faults(k, c, HardRun(k, c, z, n)) == Times(n, 2 * k - 1)
    decreases n
  {
    hide *;
    PoisedFacts(k, c);
    Distribute(n - 1, 1, 2 * k - 1);
    HardRunNext(k, c, z, n);
    if n > 0 {
      var end, y := HardEnd(k, c, z), c.pages[k - 1];
      HardPhase(k, c, z, HardRun(k, end, y, n - 1));
      HardFaults(k, end, y, n - 1);
    } else {
      ClockNothing(k, c);
    }
  }

  // ---------- a policy that pays once a phase ----------

  function Held(frame: set<int>, n: nat): (frames: seq<set<int>>)
    ensures |frames| == n && forall i :: 0 <= i < n ==> frames[i] == frame
  {
    seq(n, _ => frame)
  }

  /** Holding one frame set throughout loads only what is new in it. */
  lemma {:induction false} HeldLoads(start: set<int>, frame: set<int>, n: nat, rest: seq<set<int>>)
    requires n >= 1
    ensures Loads(start, Held(frame, n) + rest) == |frame - start| + Loads(frame, rest)
    decreases n
  {
    var frames := Held(frame, n) + rest;
    assert frames[0] == frame && frames[1..] == Held(frame, n - 1) + rest;
    if n > 1 {
      HeldLoads(frame, frame, n - 1, rest);
      assert frame - frame == {};
    } else {
      assert Held(frame, 0) + rest == rest;
    }
  }

  lemma ServesConcat(k: nat, s: seq<int>, s': seq<int>, frames: seq<set<int>>, frames': seq<set<int>>)
    requires Serves(k, s, frames) && Serves(k, s', frames')
    ensures Serves(k, s + s', frames + frames')
  {
  }

  ghost function RivalFrames(k: nat, c: C.Clock, z: int, n: nat): (frames: seq<set<int>>)
    requires 2 <= k == |c.pages|
    decreases n
  {
    if n == 0 then [] else
      Held(Elements(Lap(k, c, z)), 2 * k) + RivalFrames(k, HardEnd(k, c, z), c.pages[k - 1], n - 1)
  }

  /** In a phase the rival holds just the pages of its lap, of which only the missing one is new. */
  lemma RivalPhase(k: nat, c: C.Clock, z: int)
    requires 2 <= k && Poised(k, c) && z !in c.pages
    ensures Serves(k, Hard(k, c, z), Held(Elements(Lap(k, c, z)), 2 * k))
    ensures |Elements(Lap(k, c, z)) - Elements(c.pages)| == 1
    ensures Elements(HardEnd(k, c, z).pages) == Elements(Lap(k, c, z))
  {
    var lap := Lap(k, c, z);
    LapFacts(k, c, z);
    DistinctSize(lap);
    forall i | 0 <= i < |Hard(k, c, z)|
      ensures Hard(k, c, z)[i] in Elements(lap)
    {
      HardAt(k, c, z, i);
    }
    assert |Hard(k, c, z)| == 2 * k;
    assert lap[0] == z;
    assert Elements(lap) - Elements(c.pages) == {z};
    SamePages(lap, HardEnd(k, c, z).pages);
  }

  lemma HardAt(k: nat, c: C.Clock, z: int, i: nat)
    requires 2 <= k == |c.pages| && i < |Hard(k, c, z)|
    ensures Hard(k, c, z)[i] in Lap(k, c, z)
  {
    var lap := Lap(k, c, z);
    assert Hard(k, c, z)[i]
        == lap[if i < k then i else if i < 2 * k - 1 then i - k else k - 2];
  }

  lemma SamePages(lap: seq<int>, pages: seq<int>)
    requires lap != [] && pages == [lap[|lap| - 1]] + lap[..|lap| - 1]
    ensures Elements(pages) == Elements(lap)
  {
    forall x | x in lap
      ensures x in pages
    {
      var i :| 0 <= i < |lap| && lap[i] == x;
      assert pages[if i == |lap| - 1 then 0 else i + 1] == x;
    }
  }

  lemma {:induction false} RivalRun(k: nat, c: C.Clock, z: int, n: nat)
    requires 2 <= k && Poised(k, c) && z !in c.pages
    ensures Serves(k, HardRun(k, c, z, n), RivalFrames(k, c, z, n))
    ensures Loads(Elements(c.pages), RivalFrames(k, c, z, n)) == n
    decreases n
  {
    hide *;
    PoisedFacts(k, c);
    HardRunNext(k, c, z, n);
    ServesNothing(k);
    LoadsNothing(Elements(c.pages));
    if n > 0 {
      var end, y := HardEnd(k, c, z), c.pages[k - 1];
      HardPhase(k, c, z, []);
      RivalPhase(k, c, z);
      RivalRun(k, end, y, n - 1);
      HeldLoads(Elements(c.pages), Elements(Lap(k, c, z)), 2 * k, RivalFrames(k, end, y, n - 1));
      ServesConcat(k, Hard(k, c, z), HardRun(k, end, y, n - 1),
                   Held(Elements(Lap(k, c, z)), 2 * k), RivalFrames(k, end, y, n - 1));
    }
  }

  lemma LoadsNothing(start: set<int>)
    ensures Loads(start, []) == 0
  {
  }

  // ---------- from empty frames ----------

  /** The pages 0 to `k - 1`. */
  function FirstPages(k: nat): (s: seq<int>)
    ensures |s| == k && forall i :: 0 <= i < k ==> s[i] == i
  {
    seq(k, i => i)
  }

  function Start(k: nat): (c: C.Clock)
    requires k >= 1
  {
    C.Clock(FirstPages(k), seq(k, i => i == k - 1), 0)
  }

  lemma StartPoised(k: nat)
    requires k >= 1
    ensures Poised(k, Start(k)) && k !in Start(k).pages
  {
  }

  /** Different pages that find room fault once each. */
  lemma {:induction false} FillRun(k: nat, n: nat, rest: seq<int>)
    requires n <= k && 1 <= k
    ensures var c := C.Clock(FirstPages(n), seq(n, _ => false), 0);
            && C.Ticking(k, c)
            && C.Faults(k, C.EMPTY, FirstPages(n) + rest) == n + C.Faults(k, c, rest)
    decreases n
  {
    var c := C.Clock(FirstPages(n), seq(n, _ => false), 0);
    if n == 0 {
      assert c == C.EMPTY && FirstPages(0) + rest == rest;
    } else {
      var x: int := n - 1;
      FillRun(k, n - 1, [x] + rest);
      assert FirstPages(n) + rest == FirstPages(n - 1) + ([x] + rest);
      var before := C.Clock(FirstPages(n - 1), seq(n - 1, _ => false), 0);
      assert C.Next(k, before, x) == c by {
        assert FirstPages(n - 1) + [x] == FirstPages(n);
        assert seq(n - 1, _ => false) + [false] == seq(n, _ => false);
      }
      ClockHead(k, before, [x] + rest);
      assert ([x] + rest)[1..] == rest;
    }
  }

  /** Fill the frames, refer to the last page again, and go through `n` hard phases. */
  function Worst(k: nat, n: nat): (s: seq<int>)
    requires 2 <= k
  {
    FirstPages(k) + ([k - 1] + HardRun(k, Start(k), k, n))
  }

  lemma WorstFaults(k: nat, n: nat)
    requires 2 <= k
    ensures C.Ticking(k, C.EMPTY) && C.Faults(k, C.EMPTY, Worst(k, n)) == k + Times(n, 2 * k - 1)
  {
    var run := HardRun(k, Start(k), k, n);
    var c := C.Clock(FirstPages(k), seq(k, _ => false), 0);
    FillRun(k, k, [k - 1] + run);
    LastHit(k, c);
    assert c.bits[k - 1 := true] == Start(k).bits;
    ClockHead(k, c, [k - 1] + run);
    assert ([k - 1] + run)[1..] == run;
    assert c.pages[k - 1] == k - 1;
    StartPoised(k);
    hide HardRun, Times, Poised;
    HardFaults(k, Start(k), k, n);
  }

  lemma WorstForOpt(k: nat, n: nat)
    requires 2 <= k
    ensures Faults(Opt, k, [], Worst(k, n)) <= k + n
  {
    hide *;
    StartPoised(k);
    FirstServed(k);
    var all, first := Elements(FirstPages(k)), FirstPages(k) + [k - 1];
    var run, frames := HardRun(k, Start(k), k, n), RivalFrames(k, Start(k), k, n);
    WorstText(k, n);
    RivalRun(k, Start(k), k, n);
    ServesConcat(k, first, run, Held(all, k + 1), frames);
    HeldLoads({}, all, k + 1, frames);
    PagingOptimality.OptIsOptimal(k, Worst(k, n), Held(all, k + 1) + frames);
  }

  lemma FirstServed(k: nat)
    requires k >= 1
    ensures Serves(k, FirstPages(k) + [k - 1], Held(Elements(FirstPages(k)), k + 1))
    ensures |Elements(FirstPages(k)) - {}| == k && Start(k).pages == FirstPages(k)
  {
    var first := FirstPages(k) + [k - 1];
    DistinctSize(FirstPages(k));
    assert Elements(FirstPages(k)) - {} == Elements(FirstPages(k));
    assert forall i :: 0 <= i < |first| ==> first[i] == FirstPages(k)[if i < k then i else k - 1];
  }

  lemma WorstText(k: nat, n: nat)
    requires 2 <= k
    ensures Worst(k, n) == FirstPages(k) + [k - 1] + HardRun(k, Start(k), k, n)
  {
    hide HardRun;
  }

  /** Whatever ratio below `2 * k - 1` and whatever constant are claimed, some string breaks the claim. */
  lemma NoSmallerRatio(k: nat, ratio: nat, constant: nat)
    requires 2 <= k && ratio < 2 * k - 1
    ensures C.Ticking(k, C.EMPTY)
    ensures exists s :: C.Faults(k, C.EMPTY, s) > ratio * Faults(Opt, k, [], s) + constant
  {
    hide *;
    var n := ratio * k + constant + 1;
    WorstFaults(k, n);
    WorstForOpt(k, n);
    var s := Worst(k, n);
    Overtakes(k, n, ratio, constant, Faults(Opt, k, [], s));
    assert C.Faults(k, C.EMPTY, s) > ratio * Faults(Opt, k, [], s) + constant;
  }

  lemma Overtakes(k: nat, n: nat, ratio: nat, constant: nat, opt: nat)
    requires ratio < 2 * k - 1 && n == ratio * k + constant + 1 && opt <= k + n
    ensures k + Times(n, 2 * k - 1) > ratio * opt + constant
  {
    Scale(opt, k + n, ratio);
    Distribute(k, n, ratio);
    TimesIs(opt, ratio);
    TimesIs(k, ratio);
    Scale(ratio + 1, 2 * k - 1, n);
    Distribute(ratio, 1, n);
    Commute(n, 2 * k - 1);
    Commute(n, ratio);
    hide Times;
  }

  lemma Commute(a: int, b: int)
    ensures Times(a, b) == Times(b, a)
  {
    TimesIs(a, b);
    TimesIs(b, a);
  }
}
