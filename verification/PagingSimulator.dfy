/**
 The four page-replacement simulations over the shifting array queue, each proved to report the fault
 count of its specification in `Paging` or `PagingClock`.
 */
module PagingSimulator {
  import opened Basics
  import opened PageQueue
  import opened Paging
  import C = PagingClock

  /** `Queue.Pop` needs a spare slot, which a frame count below MAX_SIZE or a short string provides. */
  predicate Fits(max: int, s: seq<int>)
  {
    1 <= max && (max < MAX_SIZE || |s| <= MAX_SIZE)
  }

  /** What every loop keeps about its queue after `i` references. */
  ghost predicate Running(q: Queue, max: int, i: nat)
    reads q, q.arr
  {
    && q.Valid() && q.len == max && q.tail <= max && q.tail <= i && Distinct(q.Contents())
  }

  /** A fault of the FIFO and LRU loops: with all frames taken the oldest page goes. */
  method Admit(q: Queue, p: int)
    requires q.Valid() && 1 <= q.len && q.tail <= q.len && q.tail < MAX_SIZE
    modifies q`tail, q.arr
    ensures q.Valid()
    ensures var c := old(q.Contents()); q.Contents() == (if |c| == q.len then c[1..] else c) + [p]
  {
    ghost var c := q.Contents();
    var full := q.IsFull();
    if full {
      q.Pop(0);
    }
    q.Push(p, q.tail);
  }

  /** One reference of the FIFO loop. */
  method ReferFifo(q: Queue, s: seq<int>, i: nat) returns (fault: bool)
    requires i < |s| && Fits(q.len, s) && Running(q, q.len, i)
    modifies q`tail, q.arr
    ensures q.Valid()
    ensures fault <==> s[i] !in old(q.Contents())
    ensures q.Contents() == Next(Fifo, q.len, old(q.Contents()), s[i], s[i + 1..])
  {
    hide Distinct;
    var idx := q.IsHere(s[i]);
    fault := idx == -1;
    if fault {
      QueueMiss(Fifo, q.len, q.Contents(), s[i], s[i + 1..]);
      hide Next;
      Admit(q, s[i]);
    }
  }

  /** Reports the faults; `held` is what the queue holds at the end. */
  method SimulateFifo(max: int, s: seq<int>) returns (faults: nat, ghost held: seq<int>)
    requires Fits(max, s)
    ensures faults == Faults(Fifo, max, [], s) && held == After(Fifo, max, [], s)
  {
    hide Next;
    faults := 0;
    var q := new Queue(max);
    var i := 0;
    assert s[0..] == s;
    while i < |s|
      invariant i <= |s|
      invariant fresh(q) && fresh(q.arr) && Running(q, max, i)
      invariant faults + Faults(Fifo, max, q.Contents(), s[i..]) == Faults(Fifo, max, [], s)
      invariant After(Fifo, max, q.Contents(), s[i..]) == After(Fifo, max, [], s)
    {
      assert s[i..][0] == s[i] && s[i..][1..] == s[i + 1..];
      NextElements(Fifo, max, q.Contents(), s[i], s[i + 1..]);
      var fault := ReferFifo(q, s, i);
      if fault {
        faults := faults + 1;
      }
      i := i + 1;
    }
    held := q.Contents();
  }

  lemma FirstAt(q: seq<int>, p: int, i: nat)
    requires i < |q| && q[i] == p && p !in q[..i]
    ensures IndexOf(q, p) == i
  {
    var n := IndexOf(q, p);
    assert forall j :: 0 <= j < i ==> q[..i][j] == q[j];
    assert forall j :: 0 <= j < n ==> q[..n][j] == q[j];
  }

  /** A hit of the LRU loop: the page moves to the newest slot. */
  method Refresh(q: Queue, idx: nat, p: int)
    requires q.Valid() && idx < q.tail < MAX_SIZE
    modifies q`tail, q.arr
    ensures q.Valid() && q.Contents() == RemoveAt(old(q.Contents()), idx) + [p]
  {
    q.Pop(idx);
    q.Push(p, q.tail);
  }

  /** One reference of the LRU loop. */
  method ReferLru(q: Queue, s: seq<int>, i: nat) returns (fault: bool)
    requires i < |s| && Fits(q.len, s) && Running(q, q.len, i)
    modifies q`tail, q.arr
    ensures q.Valid()
    ensures fault <==> s[i] !in old(q.Contents())
    ensures q.Contents() == Next(Lru, q.len, old(q.Contents()), s[i], s[i + 1..])
  {
    hide Next, IndexOf, Distinct, RemoveAt;
    var idx := q.IsHere(s[i]);
    fault := idx == -1;
    if fault {
      QueueMiss(Lru, q.len, q.Contents(), s[i], s[i + 1..]);
      Admit(q, s[i]);
    } else {
      LruHit(q.len, q.Contents(), s[i], s[i + 1..]);
      FirstAt(q.Contents(), s[i], idx);
      Refresh(q, idx, s[i]);
    }
  }

  /** Reports the faults; `held` is what the queue holds at the end. */
  method SimulateLru(max: int, s: seq<int>) returns (faults: nat, ghost held: seq<int>)
    requires Fits(max, s)
    ensures faults == Faults(Lru, max, [], s) && held == After(Lru, max, [], s)
  {
    hide Next;
    faults := 0;
    var q := new Queue(max);
    var i := 0;
    assert s[0..] == s;
    while i < |s|
      invariant i <= |s|
      invariant fresh(q) && fresh(q.arr) && Running(q, max, i)
      invariant faults + Faults(Lru, max, q.Contents(), s[i..]) == Faults(Lru, max, [], s)
      invariant After(Lru, max, q.Contents(), s[i..]) == After(Lru, max, [], s)
    {
      assert s[i..][0] == s[i] && s[i..][1..] == s[i + 1..];
      NextElements(Lru, max, q.Contents(), s[i], s[i + 1..]);
      var fault := ReferLru(q, s, i);
      if fault {
        faults := faults + 1;
      }
      i := i + 1;
    }
    held := q.Contents();
  }

  // ---------- OPT ----------

  /** Which queue slots are used within the first `n` references of `future`. */
  ghost predicate Visited(visit: seq<bool>, q: seq<int>, future: seq<int>, n: nat)
  {
    && |visit| == |q|
    && n <= |future|
    && forall u :: 0 <= u < |q| ==> visit[u] == (NextUse(future, q[u]) < n)
  }

  /** `last` is the slot whose first use within the first `n` references comes latest. */
  ghost predicate LastVisited(last: nat, visit: seq<bool>, q: seq<int>, future: seq<int>)
    requires |visit| == |q|
  {
    && last < |q|
    && ((exists u :: 0 <= u < |q| && visit[u]) ==> visit[last])
    && forall u :: 0 <= u < |q| && visit[u] ==> NextUse(future, q[u]) <= NextUse(future, q[last])
  }

  method FirstUnvisited(visit: array<bool>) returns (v: nat)
    ensures v <= visit.Length && (v < visit.Length ==> !visit[v])
    ensures forall u :: 0 <= u < v ==> visit[u]
  {
    v := 0;
    while v < visit.Length
      invariant v <= visit.Length
      invariant forall u :: 0 <= u < v ==> visit[u]
    {
      if !visit[v] {
        break;
      }
      v := v + 1;
    }
  }

  /** The forward scan over the rest of the string, and the choice of a never-used or last-used page. */
  method ChooseVictim(q: Queue, s: seq<int>, i: nat) returns (v: nat)
    requires q.Valid() && 1 <= q.tail == q.len && Distinct(q.Contents()) && i < |s|
    ensures v == Victim(Opt, q.Contents(), s[i + 1..])
  {
    hide IndexOf, FurthestAmong, Victim, Distinct;
    var visit := new bool[q.len](_ => false);
    var last := 0;
    var j := i + 1;
    ghost var pages, future := q.Contents(), s[i + 1..];
    while j < |s|
      invariant i + 1 <= j <= |s|
      invariant q.Valid() && q.Contents() == pages
      invariant Visited(visit[..], pages, future, j - i - 1)
      invariant LastVisited(last, visit[..], pages, future)
    {
      last := MarkUse(q, visit, last, s[j], future, j - i - 1);
      j := j + 1;
    }
    v := FirstUnvisited(visit);
    VictimFound(visit[..], last, pages, future, v);
    if v == q.len {
      v := last;
    }
  }

  /** One step of the forward scan: a page used for the first time is marked and is the last so far. */
  method MarkUse(q: Queue, visit: array<bool>, last: nat, p: int, ghost future: seq<int>, ghost n: nat)
    returns (last': nat)
    requires q.Valid() && Distinct(q.Contents()) && n < |future| && future[n] == p
    requires Visited(visit[..], q.Contents(), future, n) && LastVisited(last, visit[..], q.Contents(), future)
    modifies visit
    ensures q.Valid() && q.Contents() == old(q.Contents())
    ensures Visited(visit[..], q.Contents(), future, n + 1) && LastVisited(last', visit[..], q.Contents(), future)
  {
    hide IndexOf, Distinct, Visited, LastVisited;
    var idx := q.IsHere(p);
    VisitSize(visit[..], q.Contents(), future, n);
    UseStep(visit[..], last, q.Contents(), future, n, idx);
    last' := last;
    if idx != -1 && !visit[idx] {
      visit[idx] := true;
      last' := idx;
    }
  }

  lemma VisitSize(visit: seq<bool>, q: seq<int>, future: seq<int>, n: nat)
    requires Visited(visit, q, future, n)
    ensures |visit| == |q|
  {
  }

  lemma UseStep(visit: seq<bool>, last: nat, q: seq<int>, future: seq<int>, n: nat, idx: int)
    requires n < |future| && Distinct(q)
    requires Visited(visit, q, future, n) && LastVisited(last, visit, q, future)
    requires -1 <= idx < |q| && (idx == -1 <==> future[n] !in q) && (idx != -1 ==> q[idx] == future[n])
    ensures var visit' := if idx != -1 && !visit[idx] then visit[idx := true] else visit;
            var last' := if idx != -1 && !visit[idx] then idx else last;
            Visited(visit', q, future, n + 1) && LastVisited(last', visit', q, future)
  {
    forall u | 0 <= u < |q|
      ensures NextUse(future, q[u]) == n <==> u == idx && !visit[u]
    {
      if u == idx && !visit[u] {
        FirstAtOrAfter(future, q[u], n);
      }
    }
  }

  lemma FirstAtOrAfter(future: seq<int>, p: int, n: nat)
    requires n < |future| && future[n] == p && n <= NextUse(future, p)
    ensures NextUse(future, p) == n
  {
    var m := NextUse(future, p);
    assert forall j :: 0 <= j < m ==> future[..m][j] == future[j];
  }

  lemma VictimFound(visit: seq<bool>, last: nat, q: seq<int>, future: seq<int>, v: nat)
    requires q != [] && Distinct(q)
    requires Visited(visit, q, future, |future|) && LastVisited(last, visit, q, future)
    requires v <= |q| && (forall u :: 0 <= u < v ==> visit[u]) && (v < |q| ==> !visit[v])
    ensures (if v == |q| then last else v) == Victim(Opt, q, future)
  {
    var w := Victim(Opt, q, future);
    if v == |q| {
      assert visit[w] && visit[last];
      assert NextUse(future, q[w]) == NextUse(future, q[last]);
    } else {
      assert NextUse(future, q[v]) == |future|;
    }
  }

  /** One reference of the OPT loop. */
  method ReferOpt(q: Queue, s: seq<int>, i: nat) returns (fault: bool)
    requires i < |s| && Fits(q.len, s) && Running(q, q.len, i)
    modifies q`tail, q.arr
    ensures q.Valid()
    ensures fault <==> s[i] !in old(q.Contents())
    ensures q.Contents() == Next(Opt, q.len, old(q.Contents()), s[i], s[i + 1..])
  {
    hide FurthestAmong;
    hide IndexOf;
    var idx := q.IsHere(s[i]);
    fault := idx == -1;
    if fault {
      var full := q.IsFull();
      if full {
        var v := ChooseVictim(q, s, i);
        q.Pop(v);
      }
      q.Push(s[i], q.tail);
    }
  }

  /** Reports the faults; `held` is what the queue holds at the end. */
  method SimulateOpt(max: int, s: seq<int>) returns (faults: nat, ghost held: seq<int>)
    requires Fits(max, s)
    ensures faults == Faults(Opt, max, [], s) && held == After(Opt, max, [], s)
  {
    hide Next;
    faults := 0;
    var q := new Queue(max);
    var i := 0;
    assert s[0..] == s;
    while i < |s|
      invariant i <= |s|
      invariant fresh(q) && fresh(q.arr) && Running(q, max, i)
      invariant faults + Faults(Opt, max, q.Contents(), s[i..]) == Faults(Opt, max, [], s)
      invariant After(Opt, max, q.Contents(), s[i..]) == After(Opt, max, [], s)
    {
      assert s[i..][0] == s[i] && s[i..][1..] == s[i + 1..];
      NextElements(Opt, max, q.Contents(), s[i], s[i + 1..]);
      var fault := ReferOpt(q, s, i);
      if fault {
        faults := faults + 1;
      }
      i := i + 1;
    }
    held := q.Contents();
  }

  // ---------- CLOCK ----------

  ghost function Bits(b: seq<int>): (r: seq<bool>)
    ensures |r| == |b| && forall i :: 0 <= i < |b| ==> r[i] == (b[i] != 0)
  {
    seq(|b|, i requires 0 <= i < |b| => b[i] != 0)
  }

  /** The two parallel queues, with tails kept equal, stand for one circular buffer. */
  ghost predicate Represents(q: Queue, b: Queue, hand: nat, k: nat, c: C.Clock)
    reads q, b, q.arr, b.arr
  {
    && q != b && q.arr != b.arr
    && q.Valid() && b.Valid() && q.tail == b.tail && q.len == k && b.len == k
    && C.Ticking(k, c)
    && c == C.Clock(q.Contents(), Bits(b.Contents()), hand)
  }

  /**
   One of the two scan loops: clears set bits from `lo` up, stopping at the first clear bit or at `hi`.
   `looked` counts how often a bit is read.
   */
  method Scan(b: Queue, lo: nat, hi: nat) returns (idx: nat, ghost looked: nat)
    requires b.Valid() && lo <= hi <= b.tail
    modifies b.arr
    ensures lo <= idx <= hi && looked == idx - lo + if idx < hi then 1 else 0
    ensures idx < hi ==> old(b.Contents())[idx] == 0
    ensures forall j :: lo <= j < idx ==> old(b.Contents())[j] != 0
    ensures forall j :: 0 <= j < b.tail ==>
              b.Contents()[j] == if lo <= j < idx then 0 else old(b.Contents())[j]
  {
    idx, looked := lo, 0;
    while idx < hi
      invariant lo <= idx <= hi && looked == idx - lo
      invariant forall j :: lo <= j < idx ==> old(b.Contents())[j] != 0
      invariant forall j :: 0 <= j < b.tail ==>
                b.arr[j] == if lo <= j < idx then 0 else old(b.Contents())[j]
    {
      looked := looked + 1;
      if b.arr[idx] == 0 {
        break;
      }
      b.arr[idx] := 0;
      idx := idx + 1;
    }
  }

  /** The sweep is determined by where it stops. */
  lemma SweepStops(bits: seq<bool>, hand: nat, from: nat, d: nat)
    requires hand < |bits| && from <= d <= |bits|
    requires forall e :: from <= e < d ==> bits[C.Slot(hand, e, |bits|)]
    requires d < |bits| ==> !bits[C.Slot(hand, d, |bits|)]
    ensures C.Sweep(bits, hand, from) == d
    decreases d - from
  {
    if from < d {
      SweepStops(bits, hand, from + 1, d);
    }
  }

  /** Where the scans stopped and what they cleared, as a sweep of the hand. */
  lemma Swept(before: seq<int>, after: seq<int>, hand: nat, d: nat)
    requires hand < |before| == |after| && d <= |before|
    requires forall e :: 0 <= e < d ==> before[C.Slot(hand, e, |before|)] != 0
    requires d < |before| ==> before[C.Slot(hand, d, |before|)] == 0
    requires forall i :: 0 <= i < |before| ==>
               after[i] == if C.Distance(hand, i, |before|) < d then 0 else before[i]
    ensures C.Sweep(Bits(before), hand, 0) == d && Bits(after) == C.Cleared(Bits(before), hand, d)
  {
    SweepStops(Bits(before), hand, 0, d);
    C.ClearedAt(Bits(before), hand, d);
  }

  /** The scan from the hand to the end and on from the start, up to the first clear bit or a full turn. */
  method SweepBits(b: Queue, hand: nat) returns (idx: nat, ghost examined: nat)
    requires b.Valid() && hand < b.tail
    modifies b.arr
    ensures var bits := old(Bits(b.Contents())); var d := C.Sweep(bits, hand, 0);
            && idx == C.Slot(hand, d, |bits|)
            && examined == (if d == |bits| then d else d + 1)
            && Bits(b.Contents()) == C.Cleared(bits, hand, d)
  {
    hide C.Sweep, C.Cleared, Bits;
    ghost var before := b.Contents();
    idx, examined := Scan(b, hand, b.tail);
    ghost var d := idx - hand;
    if idx == b.tail {
      ghost var looked;
      idx, looked := Scan(b, 0, hand);
      examined := examined + looked;
      d := idx + b.tail - hand;
    }
    Swept(before, b.Contents(), hand, d);
  }

  /** Takes the slot where the sweep ends, the first with a clear bit or the hand itself, out of both queues. */
  method Evict(q: Queue, b: Queue, hand: nat, ghost c: C.Clock) returns (idx: nat, ghost examined: nat)
    requires q.len > 0 && Represents(q, b, hand, q.len, c) && q.tail == q.len < MAX_SIZE
    modifies q`tail, q.arr, b`tail, b.arr
    ensures var d := C.Sweep(c.bits, hand, 0);
            && idx == C.Slot(hand, d, |c.bits|)
            && examined == (if d == |c.bits| then d else d + 1)
            && q.Valid() && b.Valid() && idx <= q.tail == b.tail == q.len - 1
            && q.Contents() == RemoveAt(c.pages, idx)
            && Bits(b.Contents()) == RemoveBit(C.Cleared(c.bits, hand, d), idx)
  {
    hide C.Sweep, C.Cleared, Bits, RemoveBit, RemoveAt, C.Slot;
    idx, examined := SweepBits(b, hand);
    Take(q, b, idx);
  }

  ghost function RemoveBit(bits: seq<bool>, i: nat): (r: seq<bool>)
    requires i < |bits|
  {
    bits[..i] + bits[i + 1..]
  }

  /** Removes the same slot from both queues. */
  method Take(q: Queue, b: Queue, idx: nat)
    requires q != b && q.arr != b.arr && q.Valid() && b.Valid() && idx < q.tail == b.tail < MAX_SIZE
    modifies q`tail, q.arr, b`tail, b.arr
    ensures q.Valid() && b.Valid() && q.tail == b.tail == old(q.tail) - 1
    ensures q.Contents() == RemoveAt(old(q.Contents()), idx)
    ensures Bits(b.Contents()) == RemoveBit(old(Bits(b.Contents())), idx)
  {
    ghost var bits := b.Contents();
    q.Pop(idx);
    b.Pop(idx);
    BitsRemoved(bits, idx);
    hide Bits, RemoveBit;
  }

  lemma BitsRemoved(b: seq<int>, i: nat)
    requires i < |b|
    ensures Bits(b[..i] + b[i + 1..]) == RemoveBit(Bits(b), i)
  {
  }

  /** Inserts the new page and its clear use bit at the same slot of both queues. */
  method Put(q: Queue, b: Queue, idx: nat, p: int)
    requires q != b && q.arr != b.arr && q.Valid() && b.Valid() && idx <= q.tail == b.tail < MAX_SIZE
    modifies q`tail, q.arr, b`tail, b.arr
    ensures q.Valid() && b.Valid() && q.tail == b.tail == old(q.tail) + 1
    ensures q.Contents() == old(q.Contents())[..idx] + [p] + old(q.Contents())[idx..]
    ensures Bits(b.Contents()) == old(Bits(b.Contents()))[..idx] + [false] + old(Bits(b.Contents()))[idx..]
  {
    q.Push(p, idx);
    b.Push(0, idx);
  }

  /** Taking a slot out and putting a new value in at the same place overwrites it. */
  lemma TakePut<T>(s: seq<T>, i: nat, x: T)
    requires i < |s|
    ensures var r := s[..i] + s[i + 1..]; r[..i] + [x] + r[i..] == s[i := x]
  {
  }

  /** A fault of the CLOCK loop: evict if need be, and store the new page where the old one was. */
  method Miss(q: Queue, b: Queue, hand: nat, p: int, ghost c: C.Clock) returns (hand': nat, ghost examined: nat)
    requires q.len > 0 && Represents(q, b, hand, q.len, c) && q.tail < MAX_SIZE && p !in c.pages
    modifies q`tail, q.arr, b`tail, b.arr
    ensures Represents(q, b, hand', q.len, C.Next(q.len, c, p))
    ensures examined == C.Examined(q.len, c, p)
    ensures q.tail <= old(q.tail) + 1
  {
    hide C.Next, C.Examined, Bits, Distinct;
    C.NextTicking(q.len, c, p);
    var idx: int := -1;
    var full := q.IsFull();
    if full {
      idx, examined := Replace(q, b, hand, p, c);
    } else {
      examined := 0;
      RoomNext(q.len, c, p);
      Put(q, b, q.tail, p);
    }
    hand' := if idx == q.tail - 1 then 0 else idx + 1;
  }

  /** A fault with all frames taken: the new page goes where the old one was. */
  method Replace(q: Queue, b: Queue, hand: nat, p: int, ghost c: C.Clock) returns (idx: nat, ghost examined: nat)
    requires q.len > 0 && Represents(q, b, hand, q.len, c) && q.tail == q.len < MAX_SIZE && p !in c.pages
    modifies q`tail, q.arr, b`tail, b.arr
    ensures q.Valid() && b.Valid() && q.tail == b.tail == q.len && idx < q.len
    ensures examined == C.Examined(q.len, c, p)
    ensures C.Next(q.len, c, p)
            == C.Clock(q.Contents(), Bits(b.Contents()), if idx == q.len - 1 then 0 else idx + 1)
  {
    hide C.Next, C.Examined, C.Sweep, C.Cleared, C.Slot, Bits, RemoveBit, RemoveAt, Distinct;
    EvictNext(q.len, c, p);
    idx, examined := Evict(q, b, hand, c);
    Put(q, b, idx, p);
  }

  /** A fault with room left, as the two queues see it. */
  lemma RoomNext(k: nat, c: C.Clock, p: int)
    requires C.Ticking(k, c) && p !in c.pages && |c.pages| < k
    ensures C.Examined(k, c, p) == 0
    ensures var n := |c.pages|;
            C.Next(k, c, p) == C.Clock(c.pages[..n] + [p] + c.pages[n..], c.bits[..n] + [false] + c.bits[n..], 0)
  {
  }

  /** A fault with all frames taken, as the two queues see it: take out one slot, put the page back in there. */
  lemma EvictNext(k: nat, c: C.Clock, p: int)
    requires C.Ticking(k, c) && p !in c.pages && |c.pages| == k
    ensures var d := C.Sweep(c.bits, c.hand, 0);
            var v := C.Slot(c.hand, d, k);
            var pages, bits := RemoveAt(c.pages, v), RemoveBit(C.Cleared(c.bits, c.hand, d), v);
            && C.Examined(k, c, p) == (if d == k then k else d + 1)
            && C.Next(k, c, p) == C.Clock(pages[..v] + [p] + pages[v..], bits[..v] + [false] + bits[v..],
                                          if v == k - 1 then 0 else v + 1)
  {
    var d := C.Sweep(c.bits, c.hand, 0);
    var v := C.Slot(c.hand, d, k);
    hide C.Cleared, C.Sweep, C.Slot, Distinct;
    TakePut(c.pages, v, p);
    TakePut(C.Cleared(c.bits, c.hand, d), v, false);
  }

  /** One reference of the CLOCK loop; a hit sets the use bit. */
  method ReferClock(q: Queue, b: Queue, hand: nat, p: int, ghost c: C.Clock)
    returns (fault: bool, hand': nat, ghost examined: nat)
    requires q.len > 0 && Represents(q, b, hand, q.len, c) && q.tail < MAX_SIZE
    modifies q`tail, q.arr, b`tail, b.arr
    ensures fault <==> p !in c.pages
    ensures Represents(q, b, hand', q.len, C.Next(q.len, c, p))
    ensures examined == C.Examined(q.len, c, p)
    ensures q.tail <= old(q.tail) + 1
  {
    examined, hand' := 0, hand;
    var idx := q.IsHere(p);
    fault := idx == -1;
    if fault {
      hand', examined := Miss(q, b, hand, p, c);
    } else {
      FirstAt(c.pages, p, idx);
      b.Set(idx, 1);
    }
  }

  /** Reports the faults; `examined` counts the bits read, and `final` is what the two queues and the hand stand for. */
  method SimulateClock(max: int, s: seq<int>) returns (faults: nat, ghost examined: nat, ghost final: C.Clock)
    requires Fits(max, s)
    ensures faults == C.Faults(max, C.EMPTY, s) && final == C.After(max, C.EMPTY, s) && C.Ticking(max, final)
    ensures examined == C.TotalExamined(max, C.EMPTY, s)
  {
    hide C.Next;
    hide C.Examined;
    faults, examined := 0, 0;
    var q := new Queue(max);
    var b := new Queue(max);
    var hand := 0;
    var i := 0;
    ghost var c := C.EMPTY;
    assert s[0..] == s;
    while i < |s|
      invariant i <= |s|
      invariant fresh(q) && fresh(q.arr) && fresh(b) && fresh(b.arr)
      invariant Represents(q, b, hand, max, c) && q.tail <= i
      invariant faults + C.Faults(max, c, s[i..]) == C.Faults(max, C.EMPTY, s)
      invariant C.After(max, c, s[i..]) == C.After(max, C.EMPTY, s)
      invariant examined + C.TotalExamined(max, c, s[i..]) == C.TotalExamined(max, C.EMPTY, s)
    {
      assert s[i..][0] == s[i] && s[i..][1..] == s[i + 1..];
      C.NextTicking(max, c, s[i]);
      ghost var n: nat;
      var fault;
      fault, hand, n := ReferClock(q, b, hand, s[i], c);
      faults, examined := faults + (if fault then 1 else 0), examined + n;
      c := C.Next(max, c, s[i]);
      i := i + 1;
    }
    final := C.Clock(q.Contents(), Bits(b.Contents()), hand);
  }
}
