/**
 The four page-replacement simulations on one reference string, and what their reports have to do with
 each other.
 */
module PagingComparison {
  import opened Paging
  import opened PagingOptimality
  import opened PagingCompetitive
  import opened PagingInclusion
  import opened ClockRatio
  import opened PagingSimulator
  import PageQueue
  import A = PagingAnomaly
  import C = PagingClock

  /**
   OPT reports the least, FIFO and LRU at most `max` times as much, CLOCK at most `2 * max - 1` times as much, and
   CLOCK reads at most one bit per reference.
   */
  method RunAll(max: int, s: seq<int>) returns (opt: nat, fifo: nat, lru: nat, clock: nat, ghost examined: nat)
    requires Fits(max, s)
    ensures opt <= fifo && opt <= lru && opt <= clock
    ensures fifo <= max * opt && lru <= max * opt && clock <= (2 * max - 1) * opt
    ensures examined <= |s|
    ensures forall frames :: Serves(max, s, frames) ==> opt <= Loads({}, frames)
  {
    ghost var held;
    opt, held := SimulateOpt(max, s);
    fifo, held := SimulateFifo(max, s);
    lru, held := SimulateLru(max, s);
    ghost var final;
    clock, examined, final := SimulateClock(max, s);
    OptBeatsQueuePolicies(Fifo, max, s);
    OptBeatsQueuePolicies(Lru, max, s);
    C.OptBeatsClock(max, s);
    Competitive(Fifo, max, s);
    Competitive(Lru, max, s);
    C.ScanCost(max, s);
    ClockCompetitive(max, s);
    forall frames | Serves(max, s, frames)
      ensures opt <= Loads({}, frames)
    {
      OptIsOptimal(max, s, frames);
    }
  }

  /** More frames never make LRU report more faults, and at the end it holds what fewer frames would hold and more. */
  method GrowLru(max: int, more: int, s: seq<int>)
    returns (few: nat, many: nat, ghost held: seq<int>, ghost heldMore: seq<int>)
    requires Fits(max, s) && Fits(more, s) && max <= more
    ensures many <= few && held == Newest(heldMore, max)
    ensures exists r :: RecencyOrder(r, s) && heldMore == Newest(r, more)
  {
    few, held := SimulateLru(max, s);
    many, heldMore := SimulateLru(more, s);
    LruInclusion(max, more, s);
    ghost var r := LruIsMostRecent(more, s);
  }

  /** The same frames, or at least twice as many less one, never make FIFO report more faults. */
  method GrowFifo(max: int, more: int, s: seq<int>) returns (few: nat, many: nat)
    requires Fits(max, s) && Fits(more, s) && max <= more
    ensures more == max || more >= 2 * max - 1 ==> many <= few
  {
    ghost var held;
    few, held := SimulateFifo(max, s);
    many, held := SimulateFifo(more, s);
    if more == max || more >= 2 * max - 1 {
      A.FifoMonotone(max, more, s);
    }
  }

  /** For any numbers of frames in between the program can be made to report more faults with more frames. */
  method ShowAnomaly(max: int, more: int) returns (few: nat, many: nat)
    requires 0 < max < more < 2 * max - 1 && more < PageQueue.MAX_SIZE
    ensures many == few + 1
  {
    var s := A.Anomaly(max, more);
    ghost var held;
    few, held := SimulateFifo(max, s);
    many, held := SimulateFifo(more, s);
    A.AnomalySmall(max, more);
    A.AnomalyBig(max, more);
  }
}
