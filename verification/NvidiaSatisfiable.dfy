/** The NVIDIA mirror of the evaluation loop (internal/modelclaim/satisfiable_nvidia.go). */
module NvidiaSatisfiable {
  import opened Prelude
  import opened Resources
  import opened Boards
  import opened MigPhysics
  import opened Slots
  import opened Tally
  import opened Satisfiable
  import MigGroups
  import NvidiaFit

  /** How the branches of the loop body sort a device. */
  lemma NvidiaKind(t: BoardTable, b: Bounds, deviceClass: string, floor: nat, d: Device)
    ensures var k := Classify(Nvidia(b, deviceClass, floor, t), d);
            if !NvidiaFit.Wanted(deviceClass, d) then k == Ignored
            else if t.ByProductName(NvidiaFit.ProductOf(d)).None? then k == Unknown
            else
              var floors := NvidiaFloors(t.boards[NvidiaFit.ProductOf(d)], b, floor, d);
              if floors.Some? && NvidiaFit.MemoryMiB(d) >= floors.value.0
                 && GetOr(d.capacity, "multiprocessors", 0) >= floors.value.1
              then k == Candidate
              else k == Rejected
  {
    hide MigGroups.MigPair, GpuAdmits;
  }

  /** Score, constraints and message of a reject, as the loop body computes them. */
  lemma NvidiaReject(t: BoardTable, b: Bounds, deviceClass: string, floor: nat, slices: seq<Slice>, s: Slot)
    requires InRange(slices, s) && Judged(Nvidia(b, deviceClass, floor, t), DeviceAt(slices, s))
    ensures var q, d := Nvidia(b, deviceClass, floor, t), DeviceAt(slices, s);
            var board := NvidiaBoardOf(t, d);
            && MissAt(q, slices, s) == Miss(d.name, if NvidiaFit.TypeOf(d) == "mig" then StrOr(d, "profile") else "",
                                            NvidiaFit.ProductOf(d), NodeOf(slices[s.0]), Failing(q, d))
            && Score(q, d) == Ratio(DerivedBandwidth(board, d), b.minBandwidthGBs)
  {
    hide Failing, Classify, DerivedBandwidth, Ratio;
  }

  lemma NvidiaFailing(t: BoardTable, b: Bounds, deviceClass: string, floor: nat, d: Device)
    requires Judged(Nvidia(b, deviceClass, floor, t), d)
    ensures var q := Nvidia(b, deviceClass, floor, t);
            var floors := NvidiaFloors(NvidiaBoardOf(t, d), b, floor, d);
            Failing(q, d) ==
              if floors.None? then {Feasibility}
              else (if NvidiaFit.MemoryMiB(d) < floors.value.0 then {Memory} else {}) +
                   (if GetOr(d.capacity, "multiprocessors", 0) < floors.value.1 then {Multiprocessors} else {})
  {
    hide NvidiaFloors, Classify;
    forall c: Constraint
      ensures c in CONSTRAINTS
    {
      match c
      case Memory =>
      case Bandwidth =>
      case Compute =>
      case Health =>
      case Feasibility =>
      case Multiprocessors =>
    }
  }

  /** The floors a device of a known board must reach: the partition thresholds
      for MIG, the plain memory floor for a full GPU of an admissible board. */
  method FloorsFor(board: NvidiaBoard, b: Bounds, floor: nat, d: Device)
    returns (thrMiB: nat, minSMs: nat, feasible: bool)
    ensures NvidiaFloors(board, b, floor, d) == if feasible then Some((thrMiB, minSMs)) else None
    ensures minSMs > 0 ==> NvidiaFit.TypeOf(d) == "mig"
  {
    hide MigThresholdMiB, MigMinSMs, GpuAdmits;
    thrMiB, minSMs, feasible := 0, 0, true;
    if NvidiaFit.TypeOf(d) == "mig" {
      var thr := MigThresholdMiB(board, b);
      if thr.None? {
        feasible := false;
      } else {
        thrMiB := thr.value;
      }
      var sms := MigMinSMs(board, floor);
      if sms.None? {
        feasible := false;
      } else {
        minSMs := sms.value;
      }
    } else {
      thrMiB := MemFloorMiB(b);
      feasible := GpuAdmits(board, b, floor);
    }
  }

  /** One turn of the NVIDIA loop body. */
  method ReadNvidia(slices: seq<Slice>, held: map<string, string>, b: Bounds, deviceClass: string, floor: nat, t: BoardTable,
                    i: nat, j: nat, before: Progress)
    returns (st: Progress)
    requires InRange(slices, (i, j)) && IsCurrent(slices, NVIDIA_DOMAIN, i)
    requires ReadUpTo(Nvidia(b, deviceClass, floor, t), slices, held, (i, j), before)
    ensures ReadUpTo(Nvidia(b, deviceClass, floor, t), slices, held, (i, j + 1), st)
  {
    hide ReadUpTo, Classify, Score, MissAt, Failing, Meets, NvidiaFloors, DerivedBandwidth;
    ghost var q := Nvidia(b, deviceClass, floor, t);
    var slice := slices[i];
    var node := NodeOf(slice);
    var d := slice.devices[j];
    NvidiaKind(t, b, deviceClass, floor, d);
    st := before;

    var (wantMIG, wantGPU) := NvidiaFit.BranchesFor(deviceClass);
    var devType := NvidiaFit.TypeOf(d);
    var isMIG := devType == "mig";
    if (isMIG && !wantMIG) || (devType == "gpu" && !wantGPU) || (devType != "mig" && devType != "gpu") {
      ReadIgnored(q, slices, held, i, j, before);
      return;
    }
    var product := NvidiaFit.ProductOf(d);
    var memMiB := NvidiaFit.MemoryMiB(d);
    var known := t.ByProductName(product);
    if known.None? {
      ReadUnknown(q, slices, held, i, j, before);
      st := st.(unknown := st.unknown + {product});
      return; // no clause of the expression names it either
    }
    var board := known.value;

    var thrMiB, minSMs, feasible := FloorsFor(board, b, floor, d);
    var memOK := feasible && memMiB >= thrMiB;
    var smOK := true;
    if isMIG && minSMs > 0 {
      smOK := GetOr(d.capacity, "multiprocessors", 0) >= minSMs;
    }
    if memOK && smOK {
      ReadCandidate(q, slices, held, i, j, before);
      st := Count(st, held, slice.pool, d.name, node);
      return;
    }

    ReadRejected(q, slices, held, i, j, before);
    NvidiaReject(t, b, deviceClass, floor, slices, (i, j));
    NvidiaFailing(t, b, deviceClass, floor, d);
    var derivedBW := DerivedBandwidth(board, d);
    var score := 0.0;
    if b.minBandwidthGBs > 0 && derivedBW > 0 {
      score := derivedBW as real / b.minBandwidthGBs as real;
    }
    if score > st.bestScore {
      var profile := if isMIG then StrOr(d, "profile") else "";
      var reasons: set<Constraint> := {};
      if !feasible {
        reasons := reasons + {Feasibility};
      } else {
        if memMiB < thrMiB {
          reasons := reasons + {Memory};
        }
        if !smOK {
          reasons := reasons + {Multiprocessors};
        }
      }
      assert reasons == Failing(q, d);
      st := st.(bestScore := score, bestMsg := Some(Miss(d.name, profile, product, node, reasons)));
    }
  }

  /** The static mirror of NvidiaFitCEL over published gpu.nvidia.com slices. */
  method EvaluateNvidiaSlices(slices: seq<Slice>, held: map<string, string>, b: Bounds, deviceClass: string, floor: nat, t: BoardTable)
    returns (c: Snapshot)
    ensures IsSnapshot(Nvidia(b, deviceClass, floor, t), slices, held, c)
  {
    hide ReadUpTo, IsSnapshot;
    ghost var q := Nvidia(b, deviceClass, floor, t);
    var maxGen := CurrentPoolGens(slices, NVIDIA_DOMAIN);
    var st := START;
    Begin(q, slices, held);
    for i := 0 to |slices|
      invariant ReadUpTo(q, slices, held, (i, 0), st)
    {
      var slice := slices[i];
      if slice.driver != NVIDIA_DOMAIN || slice.generation < GetOr(maxGen, slice.pool, 0) {
        SliceSkipped(q, slices, held, i, st);
        continue;
      }
      for j := 0 to |slice.devices|
        invariant ReadUpTo(q, slices, held, (i, j), st)
      {
        st := ReadNvidia(slices, held, b, deviceClass, floor, t, i, j, st);
      }
      SliceDone(q, slices, held, i, st);
    }
    Conclude(q, slices, held, st);
    c := Conclusion(st);
  }
}
