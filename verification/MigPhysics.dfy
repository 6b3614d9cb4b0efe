/** The arithmetic that folds a memory floor and a bandwidth floor into one
    capacity threshold per board (internal/modelclaim/nvidia.go). */
module MigPhysics {
  import opened Prelude
  import opened Resources
  import opened Arith
  import opened Boards

  function MemFloorMiB(b: Bounds): nat {
    b.memoryGi * 1024
  }

  /** Least number of memory slices whose share of the board's peak bandwidth reaches `bw`. */
  function MinSlices(board: NvidiaBoard, bw: nat): nat
    requires board.memoryBandwidthGBs > 0
  {
    CeilDiv(bw * board.memorySlices, board.memoryBandwidthGBs)
  }

  /** Midpoint between k-1 and k slices of board memory. */
  function Midpoint(board: NvidiaBoard, k: nat): nat
    requires board.memorySlices > 0 && k >= 1
  {
    var n: nat := (2 * k - 1) * board.memoryMiB;
    n / (2 * board.memorySlices)
  }

  function MigThresholdMiB(board: NvidiaBoard, b: Bounds): Option<nat> {
    if board.memorySlices == 0 || board.memoryBandwidthGBs == 0 then None
    else
      var memFloor := MemFloorMiB(b);
      if b.minBandwidthGBs == 0 then
        if memFloor > board.memoryMiB then None else Some(memFloor)
      else
        var k := MinSlices(board, b.minBandwidthGBs);
        if k > board.memorySlices then None
        else
          var mid := if k >= 1 then Midpoint(board, k) else 0;
          var thr := if mid > memFloor then mid else memFloor;
          if thr > board.memoryMiB then None else Some(thr)
  }

  function MigMinSMs(board: NvidiaBoard, minComputeTFLOPS: nat): Option<nat> {
    if minComputeTFLOPS == 0 then Some(0)
    else if board.computeTFLOPS == 0 || board.smCount == 0 then None
    else
      var minSMs := CeilDiv(minComputeTFLOPS * board.smCount, board.computeTFLOPS);
      if minSMs > board.smCount then None else Some(minSMs)
  }

  predicate GpuAdmits(board: NvidiaBoard, b: Bounds, minComputeTFLOPS: nat) {
    && board.memoryBandwidthGBs >= b.minBandwidthGBs
    && board.memoryMiB >= MemFloorMiB(b)
    && (minComputeTFLOPS > 0 ==> board.computeTFLOPS >= minComputeTFLOPS)
  }

  // ---- The derived model, stated without any threshold ---------------------

  predicate MigCapable(board: NvidiaBoard) {
    board.memorySlices > 0 && board.memoryBandwidthGBs > 0
  }

  /** A partition of `j` memory slices that publishes `c` MiB: at most its nominal
      share j*M/S, and short of that share by at most a 1/(2S) fraction of it. */
  ghost predicate Partition(board: NvidiaBoard, j: nat, c: nat) {
    && 1 <= j <= board.memorySlices
    && c * board.memorySlices <= j * board.memoryMiB
    && 2 * board.memorySlices * (board.memorySlices * c) >= (2 * board.memorySlices - 1) * (j * board.memoryMiB)
  }

  /** What the claim asks of it: enough memory, and a derived bandwidth j*B/S at
      or above the floor. */
  ghost predicate MeetsFloors(board: NvidiaBoard, b: Bounds, j: nat, c: nat) {
    c >= MemFloorMiB(b) && j * board.memoryBandwidthGBs >= b.minBandwidthGBs * board.memorySlices
  }

  lemma MinSlicesPositive(board: NvidiaBoard, bw: nat)
    requires MigCapable(board) && bw > 0
    ensures MinSlices(board, bw) >= 1
  {
    assert bw * board.memorySlices >= 1 by { MulMonotone(1, bw, board.memorySlices); }
    CeilingIsLeast(bw * board.memorySlices, board.memoryBandwidthGBs, 0);
  }

  /** Enough slices: the published capacity reaches the midpoint. */
  lemma EnoughSlicesReachMidpoint(board: NvidiaBoard, j: nat, k: nat, c: nat)
    requires Partition(board, j, c) && 1 <= k <= j
    ensures c >= Midpoint(board, k)
  {
    var s, m := board.memorySlices, board.memoryMiB;
    ShareBelowNominal(s, m, j * m, s * c, j);
    MulMonotone(2 * k - 1, 2 * j - 1, m);
    OddMultiple(j, m);
    QuotientReached((2 * k - 1) * m, s, c);
  }

  lemma OddMultiple(j: nat, m: nat)
    requires j >= 1
    ensures (2 * j - 1) * m == 2 * (j * m) - m
  {
  }

  lemma QuotientReached(n: nat, s: nat, c: nat)
    requires s > 0 && n <= 2 * (s * c)
    ensures n / (2 * s) <= c
  {
    var q := n / (2 * s);
    QuotientBounds(n, 2 * s);
    assert 2 * s * q == q * (2 * s);
    assert 2 * s * c == 2 * (s * c);
    CancelFactor(2 * s, q, c);
  }

  /** Dividing the tolerance by s: 2s*x >= (2s-1)*a with a <= s*m gives 2x >= 2a - m. */
  lemma ShareBelowNominal(s: nat, m: nat, a: nat, x: nat, j: nat)
    requires s > 0 && j <= s && a == j * m
    requires 2 * s * x >= (2 * s - 1) * a
    ensures 2 * x >= 2 * a - m
  {
    MulMonotone(j, s, m);
    assert (2 * s - 1) * a == s * (2 * a) - a;
    assert 2 * s * x == s * (2 * x);
    assert s * (2 * a - m) == s * (2 * a) - s * m;
    CancelFactor(s, 2 * a - m, 2 * x);
  }

  /** Too few slices: it stays strictly below, given at least 2 MiB per slice. */
  lemma TooFewSlicesMissMidpoint(board: NvidiaBoard, j: nat, k: nat, c: nat)
    requires Partition(board, j, c) && j < k && board.memoryMiB >= 2 * board.memorySlices
    ensures c < Midpoint(board, k)
  {
    var s, m := board.memorySlices, board.memoryMiB;
    // 2s*(c+1) = 2*s*c + 2s <= 2*j*m + m <= (2k-1)*m
    assert (c + 1) * (2 * s) == 2 * (c * s) + 2 * s;
    assert 2 * (j * m) + m == (2 * j + 1) * m;
    MulMonotone(2 * j + 1, 2 * k - 1, m);
    QuotientIsGreatest((2 * k - 1) * m, 2 * s, c + 1);
  }

  lemma CancelFactor(s: nat, x: int, y: int)
    requires s > 0 && s * x <= s * y
    ensures x <= y
  {
    assert s * (x - y) == s * x - s * y;
    if x > y {
      MulMonotone(1, x - y, s);
      assert false;
    }
  }

  // ---- When one threshold decides both floors ---------------------------------

  /** The capacity test that the expression and the evaluation apply. */
  predicate MeetsThreshold(board: NvidiaBoard, b: Bounds, c: nat) {
    MigThresholdMiB(board, b).Some? && c >= MigThresholdMiB(board, b).value
  }

  /** The most bandwidth that `j` memory slices can be asked for. */
  function SliceBandwidth(board: NvidiaBoard, j: nat): nat
    requires MigCapable(board)
  {
    var n: nat := j * board.memoryBandwidthGBs;
    n / board.memorySlices
  }

  /** The nominal share of `j` memory slices, in whole MiB. */
  function ShareMiB(board: NvidiaBoard, j: nat): nat
    requires MigCapable(board)
  {
    var n: nat := j * board.memoryMiB;
    n / board.memorySlices
  }

  /** No partition that is short of slices reaches the midpoint some bandwidth floor
      asks for: a finite condition on the board alone. */
  ghost predicate Separated(board: NvidiaBoard)
    requires MigCapable(board)
  {
    forall j: nat, k: nat :: Partition(board, j, ShareMiB(board, j)) && Attained(board, j, k) ==>
      ShareMiB(board, j) < Midpoint(board, k)
  }

  /** Slice counts above `j` that are the least for some bandwidth floor. */
  predicate Attained(board: NvidiaBoard, j: nat, k: nat)
    requires MigCapable(board)
  {
    j < k <= board.memorySlices && SliceBandwidth(board, k - 1) < SliceBandwidth(board, k)
  }

  lemma MinSlicesAtMost(board: NvidiaBoard, bw: nat, j: nat)
    requires MigCapable(board)
    ensures MinSlices(board, bw) <= j <==> bw * board.memorySlices <= j * board.memoryBandwidthGBs
    ensures MinSlices(board, bw) <= j <==> bw <= SliceBandwidth(board, j)
  {
    CeilingIsLeast(bw * board.memorySlices, board.memoryBandwidthGBs, j);
    QuotientIsGreatest(j * board.memoryBandwidthGBs, board.memorySlices, bw);
  }

  /** The tolerated capacities of `j` slices, if any, reach up to the nominal share. */
  lemma LargestPartition(board: NvidiaBoard, j: nat, c: nat)
    requires MigCapable(board) && Partition(board, j, c)
    ensures c <= ShareMiB(board, j) && Partition(board, j, ShareMiB(board, j))
  {
    var s, share := board.memorySlices, ShareMiB(board, j);
    QuotientIsGreatest(j * board.memoryMiB, s, c);
    QuotientIsGreatest(j * board.memoryMiB, s, share);
    LargerTolerated(s, c, share);
  }

  lemma LargerTolerated(s: nat, c: nat, d: nat)
    requires c <= d
    ensures 2 * s * (s * c) <= 2 * s * (s * d)
  {
    MulMonotone(c, d, s);
    assert s * c == c * s && s * d == d * s;
    MulMonotone(s * c, s * d, 2 * s);
    assert 2 * s * (s * c) == (s * c) * (2 * s) && 2 * s * (s * d) == (s * d) * (2 * s);
  }

  /** Two floors collapse into one threshold: on every published partition of a
      separated board the single capacity test decides exactly the memory floor and
      the derived bandwidth floor together. */
  lemma ThresholdDecidesBothFloors(board: NvidiaBoard, b: Bounds, j: nat, c: nat)
    requires MigCapable(board) && Separated(board)
    requires Partition(board, j, c)
    ensures MeetsThreshold(board, b, c) <==> MeetsFloors(board, b, j, c)
  {
    var s, m, bw := board.memorySlices, board.memoryMiB, b.minBandwidthGBs;
    assert c <= m by {
      MulMonotone(j, s, m);
      CancelFactor(s, c, m);
    }
    if bw > 0 {
      var k := MinSlices(board, bw);
      MinSlicesPositive(board, bw);
      MinSlicesAtMost(board, bw, j);
      if k <= j {
        EnoughSlicesReachMidpoint(board, j, k, c);
      } else if k <= s {
        MinSlicesAtMost(board, bw, k);
        MinSlicesAtMost(board, bw, k - 1);
        LargestPartition(board, j, c);
        assert Attained(board, j, k);
      }
    } else {
      assert bw * s == 0;
      assert j * board.memoryBandwidthGBs >= 0;
    }
  }

  /** And on a board that is not separated it does not: some bandwidth floor alone
      admits a partition with too few slices. */
  lemma UnseparatedMisleads(board: NvidiaBoard, j: nat, k: nat)
    requires MigCapable(board) && Attained(board, j, k)
    requires Partition(board, j, ShareMiB(board, j)) && ShareMiB(board, j) >= Midpoint(board, k)
    ensures var b := Bounds("", "", 0, SliceBandwidth(board, k), "");
            MeetsThreshold(board, b, ShareMiB(board, j)) && !MeetsFloors(board, b, j, ShareMiB(board, j))
  {
    hide Midpoint, ShareMiB;
    var bw := SliceBandwidth(board, k);
    MinSlicesAtMost(board, bw, k);
    MinSlicesAtMost(board, bw, k - 1);
    MinSlicesAtMost(board, bw, j);
    MidpointWithinBoard(board, k);
  }

  /** The exact condition: one threshold decides both floors, for all bounds and all
      published partitions, if and only if the board is separated. */
  lemma ThresholdDecidesIffSeparated(board: NvidiaBoard)
    requires MigCapable(board)
    ensures Separated(board) <==>
            forall b: Bounds, j: nat, c: nat :: Partition(board, j, c) ==> (MeetsThreshold(board, b, c) <==> MeetsFloors(board, b, j, c))
  {
    hide MeetsThreshold, MeetsFloors, Partition, Midpoint, ShareMiB;
    if Separated(board) {
      forall b: Bounds, j: nat, c: nat | Partition(board, j, c)
        ensures MeetsThreshold(board, b, c) <==> MeetsFloors(board, b, j, c)
      {
        ThresholdDecidesBothFloors(board, b, j, c);
      }
    } else {
      var j: nat, k: nat :| Partition(board, j, ShareMiB(board, j)) && Attained(board, j, k)
                            && ShareMiB(board, j) >= Midpoint(board, k);
      UnseparatedMisleads(board, j, k);
    }
  }

  /** Two MiB per memory slice are enough. */
  lemma RoomyBoardsAreSeparated(board: NvidiaBoard)
    requires MigCapable(board) && board.memoryMiB >= 2 * board.memorySlices
    ensures Separated(board)
  {
    forall j: nat, k: nat | Partition(board, j, ShareMiB(board, j)) && Attained(board, j, k)
      ensures ShareMiB(board, j) < Midpoint(board, k)
    {
      TooFewSlicesMissMidpoint(board, j, k, ShareMiB(board, j));
    }
  }

  /** Below that some boards are not separated, with one MiB for each of eight slices
      for example, and some are, with three MiB for two. */
  lemma SmallBoardsVary()
    ensures var board := NvidiaBoard("", 8, 8, 0, 0, 8); MigCapable(board) && !Separated(board)
    ensures var board := NvidiaBoard("", 3, 2, 0, 0, 2); MigCapable(board) && Separated(board)
  {
    var eight := NvidiaBoard("", 8, 8, 0, 0, 8);
    assert Partition(eight, 7, 7) && ShareMiB(eight, 7) == 7;
    assert Attained(eight, 7, 8) && Midpoint(eight, 8) == 7;
    var two := NvidiaBoard("", 3, 2, 0, 0, 2);
    assert ShareMiB(two, 1) == 1 && !Partition(two, 1, 1);
  }

  /** On any board, a missing threshold means that no partition whatsoever could fit,
      and a present one that some partition (the full board) does. */
  lemma ThresholdExistsIffSomePartitionFits(board: NvidiaBoard, b: Bounds)
    requires MigCapable(board)
    ensures MigThresholdMiB(board, b).Some? <==>
            exists j: nat, c: nat :: Partition(board, j, c) && MeetsFloors(board, b, j, c)
  {
    var s, m := board.memorySlices, board.memoryMiB;
    forall j: nat, c: nat | Partition(board, j, c) && MeetsFloors(board, b, j, c)
      ensures MigThresholdMiB(board, b).Some?
    {
      FittingPartitionFeasible(board, b, j, c);
    }
    if MigThresholdMiB(board, b).Some? {
      WholeBoardFits(board, b);
    }
  }

  lemma FittingPartitionFeasible(board: NvidiaBoard, b: Bounds, j: nat, c: nat)
    requires MigCapable(board) && Partition(board, j, c) && MeetsFloors(board, b, j, c)
    ensures MigThresholdMiB(board, b).Some?
  {
    hide Midpoint, MinSlices;
    var s, m, bw := board.memorySlices, board.memoryMiB, b.minBandwidthGBs;
    MulMonotone(j, s, m);
    CancelFactor(s, c, m);
    MinSlicesAtMost(board, bw, j);
    if bw > 0 {
      MinSlicesPositive(board, bw);
      MidpointWithinBoard(board, MinSlices(board, bw));
    }
  }

  lemma WholeBoardFits(board: NvidiaBoard, b: Bounds)
    requires MigCapable(board) && MigThresholdMiB(board, b).Some?
    ensures Partition(board, board.memorySlices, board.memoryMiB)
    ensures MeetsFloors(board, b, board.memorySlices, board.memoryMiB)
  {
    WholeBoardIsPartition(board);
    hide Midpoint, MinSlices, Partition;
    MinSlicesAtMost(board, b.minBandwidthGBs, board.memorySlices);
    if b.minBandwidthGBs == 0 {
      assert board.memorySlices * board.memoryBandwidthGBs >= 0;
    }
  }

  lemma WholeBoardIsPartition(board: NvidiaBoard)
    requires MigCapable(board)
    ensures Partition(board, board.memorySlices, board.memoryMiB)
  {
    var s, m := board.memorySlices, board.memoryMiB;
    assert m * s == s * m;
    assert 2 * s * (s * m) == (2 * s - 1) * (s * m) + s * m;
  }

  // ---- Partition feasibility is whole-board admission -----------------------

  lemma CeilingWithinWhole(want: nat, whole: nat, peak: nat)
    requires whole > 0 && peak > 0
    ensures CeilDiv(want * whole, peak) <= whole <==> want <= peak
  {
    CeilingIsLeast(want * whole, peak, whole);
    assert want * whole == whole * want;
    if want <= peak {
      MulMonotone(want, peak, whole);
      assert peak * whole == whole * peak;
    } else {
      assert whole * want == whole * peak + whole * (want - peak);
      assert whole * (want - peak) >= 1;
    }
  }

  lemma MidpointWithinBoard(board: NvidiaBoard, k: nat)
    requires board.memorySlices > 0 && 1 <= k <= board.memorySlices
    ensures Midpoint(board, k) <= board.memoryMiB
  {
    var s, m := board.memorySlices, board.memoryMiB;
    MulMonotone(2 * k - 1, 2 * s, m);
    QuotientBounds((2 * k - 1) * m, 2 * s);
    var mid := Midpoint(board, k);
    assert 2 * s * mid == mid * (2 * s) <= 2 * s * m;
    CancelFactor(2 * s, mid, m);
  }

  /** Some partition is feasible, memory, bandwidth and compute together, exactly
      when the whole board is. */
  lemma PartitionFeasibleIffBoardAdmits(board: NvidiaBoard, b: Bounds, minComputeTFLOPS: nat)
    requires MigCapable(board)
    requires minComputeTFLOPS > 0 ==> board.computeTFLOPS > 0 && board.smCount > 0
    ensures (MigThresholdMiB(board, b).Some? && MigMinSMs(board, minComputeTFLOPS).Some?)
            <==> GpuAdmits(board, b, minComputeTFLOPS)
  {
    var bw := b.minBandwidthGBs;
    CeilingWithinWhole(bw, board.memorySlices, board.memoryBandwidthGBs);
    if bw > 0 && MinSlices(board, bw) <= board.memorySlices {
      MinSlicesPositive(board, bw);
      MidpointWithinBoard(board, MinSlices(board, bw));
    }
    if minComputeTFLOPS > 0 {
      CeilingWithinWhole(minComputeTFLOPS, board.smCount, board.computeTFLOPS);
    }
  }

  /** The multiprocessor threshold decides exactly the compute floor: a partition with
      `sms` of the board's multiprocessors reaches it if and only if its share of the
      board's compute reaches the floor, on a board whose compute is known to. */
  lemma MinSMsDecideCompute(board: NvidiaBoard, floor: nat, sms: nat)
    ensures (MigMinSMs(board, floor).Some? && sms >= MigMinSMs(board, floor).value) <==>
            (floor == 0 || (board.smCount > 0 && board.computeTFLOPS >= floor
                            && sms * board.computeTFLOPS >= floor * board.smCount))
  {
    if floor > 0 && board.computeTFLOPS > 0 && board.smCount > 0 {
      CeilingIsLeast(floor * board.smCount, board.computeTFLOPS, sms);
      CeilingWithinWhole(floor, board.smCount, board.computeTFLOPS);
    }
  }

  // ---- Tightening ------------------------------------------------------------

  /** `t` asks for at least as much as `b`. */
  predicate Tighter(b: Bounds, t: Bounds) {
    b.memoryGi <= t.memoryGi && b.minBandwidthGBs <= t.minBandwidthGBs
  }

  lemma CeilingMonotone(a: nat, c: nat, b: nat)
    requires b > 0 && a <= c
    ensures CeilDiv(a, b) <= CeilDiv(c, b)
  {
    QuotientMonotone(a + b - 1, c + b - 1, b);
  }

  /** Tightening never lowers a threshold and never makes one appear. */
  lemma ThresholdMonotone(board: NvidiaBoard, b: Bounds, t: Bounds)
    requires Tighter(b, t) && MigThresholdMiB(board, t).Some?
    ensures MigThresholdMiB(board, b).Some?
    ensures MigThresholdMiB(board, b).value <= MigThresholdMiB(board, t).value
  {
    hide MinSlices, Midpoint;
    if b.minBandwidthGBs > 0 {
      MinSlicesPositive(board, b.minBandwidthGBs);
      MinSlicesMonotone(board, b.minBandwidthGBs, t.minBandwidthGBs);
      MidpointMonotone(board, MinSlices(board, b.minBandwidthGBs), MinSlices(board, t.minBandwidthGBs));
    }
  }

  lemma MinSlicesMonotone(board: NvidiaBoard, bw: nat, higher: nat)
    requires MigCapable(board) && bw <= higher
    ensures MinSlices(board, bw) <= MinSlices(board, higher)
  {
    MulMonotone(bw, higher, board.memorySlices);
    CeilingMonotone(bw * board.memorySlices, higher * board.memorySlices, board.memoryBandwidthGBs);
  }

  lemma MidpointMonotone(board: NvidiaBoard, k: nat, k': nat)
    requires board.memorySlices > 0 && 1 <= k <= k'
    ensures Midpoint(board, k) <= Midpoint(board, k')
  {
    MulMonotone(2 * k - 1, 2 * k' - 1, board.memoryMiB);
    QuotientMonotone((2 * k - 1) * board.memoryMiB, (2 * k' - 1) * board.memoryMiB, 2 * board.memorySlices);
  }

  lemma MinSMsMonotone(board: NvidiaBoard, floor: nat, higher: nat)
    requires floor <= higher && MigMinSMs(board, higher).Some?
    ensures MigMinSMs(board, floor).Some?
    ensures MigMinSMs(board, floor).value <= MigMinSMs(board, higher).value
  {
    if floor > 0 {
      MulMonotone(floor, higher, board.smCount);
      CeilingMonotone(floor * board.smCount, higher * board.smCount, board.computeTFLOPS);
    }
  }
}
