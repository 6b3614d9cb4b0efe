/** Compiling resolved bounds into the NVIDIA driver's vocabulary, and the same
    verdict stated on the device itself (internal/modelclaim/nvidia.go,
    internal/modelclaim/satisfiable_nvidia.go, internal/modelclaim/backend.go). */
module NvidiaFit {
  import opened Prelude
  import opened Resources
  import opened Boards
  import opened MigPhysics
  import opened MigGroups
  import opened Cel
  import Text
  import Sorting

  /** Which device types the class admits: (MIG partitions, full GPUs). */
  function BranchesFor(deviceClass: string): (bool, bool) {
    if deviceClass == NVIDIA_MIG_CLASS then (true, false)
    else if deviceClass == NVIDIA_GPU_CLASS then (false, true)
    else (true, true)
  }

  // ---- The verdict -----------------------------------------------------------

  function TypeOf(d: Device): string {
    if StrOf(d, "type").Some? then StrOf(d, "type").value else ""
  }

  function ProductOf(d: Device): string {
    if StrOf(d, "productName").Some? then StrOf(d, "productName").value else ""
  }

  function MemoryMiB(d: Device): nat {
    GetOr(d.capacity, "memory", 0) / MIB
  }

  /** The device is of a type the class asks for. */
  predicate Wanted(deviceClass: string, d: Device) {
    var (wantMIG, wantGPU) := BranchesFor(deviceClass);
    (TypeOf(d) == "mig" && wantMIG) || (TypeOf(d) == "gpu" && wantGPU)
  }

  predicate PartitionFits(board: NvidiaBoard, b: Bounds, minComputeTFLOPS: nat, d: Device) {
    var pair := MigPair(board, b, minComputeTFLOPS);
    && pair.Some?
    && MemoryMiB(d) >= pair.value.0
    && GetOr(d.capacity, "multiprocessors", 0) >= pair.value.1
  }

  predicate BoardFits(board: NvidiaBoard, b: Bounds, minComputeTFLOPS: nat, d: Device) {
    GpuAdmits(board, b, minComputeTFLOPS) && MemoryMiB(d) >= MemFloorMiB(b)
  }

  /** A device the advisory evaluation counts. */
  predicate Admits(t: BoardTable, b: Bounds, deviceClass: string, minComputeTFLOPS: nat, d: Device) {
    && Wanted(deviceClass, d)
    && ProductOf(d) in t.boards
    && (if TypeOf(d) == "mig"
        then PartitionFits(t.boards[ProductOf(d)], b, minComputeTFLOPS, d)
        else BoardFits(t.boards[ProductOf(d)], b, minComputeTFLOPS, d))
  }

  // ---- The compiler ------------------------------------------------------------

  function SMTests(minSMs: nat): seq<Expr> {
    if minSMs > 0 then
      [HasCap(NVIDIA_DOMAIN, "multiprocessors"), CapAtLeast(NVIDIA_DOMAIN, "multiprocessors", minSMs)]
    else []
  }

  function MigClause(g: MigGroup): Expr {
    AndAll([AttrAmong(NVIDIA_DOMAIN, "productName", g.products),
            CapAtLeast(NVIDIA_DOMAIN, "memory", g.thresholdMiB * MIB)] + SMTests(g.minSMs))
  }

  function MigClauses(gs: seq<MigGroup>): seq<Expr> {
    seq(|gs|, i requires 0 <= i < |gs| => MigClause(gs[i]))
  }

  function MigBranch(gs: seq<MigGroup>): Expr
    requires gs != []
  {
    And(AttrIs(NVIDIA_DOMAIN, "type", "mig"), OrAny(MigClauses(gs)))
  }

  function GpuBranch(admitted: seq<string>, b: Bounds): Expr {
    AndAll([AttrIs(NVIDIA_DOMAIN, "type", "gpu"),
            AttrAmong(NVIDIA_DOMAIN, "productName", admitted),
            CapAtLeast(NVIDIA_DOMAIN, "memory", MemFloorMiB(b) * MIB)])
  }

  function Branches(deviceClass: string, gs: seq<MigGroup>, admitted: seq<string>, b: Bounds): seq<Expr> {
    var (wantMIG, wantGPU) := BranchesFor(deviceClass);
    (if wantMIG && gs != [] then [MigBranch(gs)] else []) +
    (if wantGPU && admitted != [] then [GpuBranch(admitted, b)] else [])
  }

  /** The guarded disjunction, or `false` when nothing in the table can fit. */
  function Guarded(branches: seq<Expr>): Expr {
    if branches == [] then Const(Bool(false))
    else AndAll([HasAttr(NVIDIA_DOMAIN, "type"),
                 HasAttr(NVIDIA_DOMAIN, "productName"),
                 HasCap(NVIDIA_DOMAIN, "memory"),
                 OrAny(branches)])
  }

  /** `admitted` lists the boards that fit whole, by ascending name. */
  ghost predicate IsAdmitted(t: BoardTable, b: Bounds, minComputeTFLOPS: nat, admitted: seq<string>) {
    && Sorting.StrictlySorted(admitted, Text.Less)
    && forall p :: p in admitted <==> p in t.boards && GpuAdmits(t.boards[p], b, minComputeTFLOPS)
  }

  /** The lists that the wanted branches are rendered from. */
  ghost predicate IsParts(t: BoardTable, b: Bounds, deviceClass: string, minComputeTFLOPS: nat,
                          gs: seq<MigGroup>, admitted: seq<string>) {
    var (wantMIG, wantGPU) := BranchesFor(deviceClass);
    (wantMIG ==> IsMigGroups(t, b, minComputeTFLOPS, gs)) && (wantGPU ==> IsAdmitted(t, b, minComputeTFLOPS, admitted))
  }

  /** `e` is the expression emitted for these inputs. */
  ghost predicate IsNvidiaFit(t: BoardTable, b: Bounds, deviceClass: string, minComputeTFLOPS: nat, e: Expr) {
    exists gs, admitted ::
      IsParts(t, b, deviceClass, minComputeTFLOPS, gs, admitted) && e == Guarded(Branches(deviceClass, gs, admitted, b))
  }

  /** `admitted` names exactly the admissible ones of the first `n` boards. */
  ghost predicate AdmittedAmong(all: seq<NvidiaBoard>, n: nat, b: Bounds, minComputeTFLOPS: nat, admitted: seq<string>)
    requires n <= |all|
  {
    forall p :: p in admitted <==> exists i :: 0 <= i < n && all[i].productName == p && GpuAdmits(all[i], b, minComputeTFLOPS)
  }

  method AdmittedBoards(t: BoardTable, b: Bounds, minComputeTFLOPS: nat) returns (admitted: seq<string>)
    ensures IsAdmitted(t, b, minComputeTFLOPS, admitted)
  {
    hide GpuAdmits, AdmittedAmong, Sorting.Ordering;
    var all := All(t);
    admitted := [];
    NoneAdmitted(all, b, minComputeTFLOPS);
    for n := 0 to |all|
      invariant AdmittedAmong(all, n, b, minComputeTFLOPS, admitted)
      invariant Sorting.Distinct(admitted)
    {
      NameIsNew(t, all, n, b, minComputeTFLOPS, admitted);
      AdmitNext(all, n, b, minComputeTFLOPS, admitted);
      if GpuAdmits(all[n], b, minComputeTFLOPS) {
        admitted := admitted + [all[n].productName];
      }
    }
    Text.LessIsOrdering();
    var unsorted := admitted;
    admitted := Sorting.Sort(unsorted, Text.Less);
    Sorting.SameElements(unsorted, admitted);
    AdmittedListed(t, b, minComputeTFLOPS, all, unsorted, admitted);
  }

  lemma NoneAdmitted(all: seq<NvidiaBoard>, b: Bounds, minComputeTFLOPS: nat)
    ensures AdmittedAmong(all, 0, b, minComputeTFLOPS, [])
  {
  }

  lemma AdmitNext(all: seq<NvidiaBoard>, n: nat, b: Bounds, minComputeTFLOPS: nat, admitted: seq<string>)
    requires n < |all| && AdmittedAmong(all, n, b, minComputeTFLOPS, admitted)
    ensures AdmittedAmong(all, n + 1, b, minComputeTFLOPS,
                          if GpuAdmits(all[n], b, minComputeTFLOPS) then admitted + [all[n].productName] else admitted)
  {
    hide GpuAdmits;
    var next := n + 1;
    var after := if GpuAdmits(all[n], b, minComputeTFLOPS) then admitted + [all[n].productName] else admitted;
    forall p
      ensures p in after <==> exists i :: 0 <= i < next && all[i].productName == p && GpuAdmits(all[i], b, minComputeTFLOPS)
    {
      if i :| 0 <= i < next && all[i].productName == p && GpuAdmits(all[i], b, minComputeTFLOPS) {
        assert i < n ==> p in admitted;
      }
    }
  }

  lemma NameIsNew(t: BoardTable, all: seq<NvidiaBoard>, n: nat, b: Bounds, minComputeTFLOPS: nat, admitted: seq<string>)
    requires IsAll(t, all) && n < |all| && AdmittedAmong(all, n, b, minComputeTFLOPS, admitted)
    ensures all[n].productName !in admitted
  {
    hide GpuAdmits;
    forall i | 0 <= i < n
      ensures all[i].productName != all[n].productName
    {
      assert BoardLess(all[i], all[n]);
      Text.LessIrreflexive(all[n].productName);
    }
  }

  lemma AdmittedListed(t: BoardTable, b: Bounds, minComputeTFLOPS: nat, all: seq<NvidiaBoard>,
                       unsorted: seq<string>, admitted: seq<string>)
    requires IsAll(t, all) && Sorting.Sorted(admitted, Text.Less) && Sorting.Distinct(admitted)
    requires AdmittedAmong(all, |all|, b, minComputeTFLOPS, unsorted) && forall p :: p in unsorted <==> p in admitted
    ensures IsAdmitted(t, b, minComputeTFLOPS, admitted)
  {
    hide GpuAdmits;
    forall i, j | 0 <= i < j < |admitted|
      ensures Text.Less(admitted[i], admitted[j])
    {
      Text.LessTotal(admitted[i], admitted[j]);
    }
    forall p
      ensures p in admitted <==> p in t.boards && GpuAdmits(t.boards[p], b, minComputeTFLOPS)
    {
      if p in admitted {
        var i :| 0 <= i < |all| && all[i].productName == p && GpuAdmits(all[i], b, minComputeTFLOPS);
        assert all[i] in all;
      }
      if p in t.boards {
        assert t.boards[p] in all;
      }
    }
  }

  /** Renders the fit inequality against gpu.nvidia.com attributes. */
  method NvidiaFitCEL(b: Bounds, t: BoardTable, deviceClass: string, minComputeTFLOPS: nat) returns (e: Expr)
    ensures IsNvidiaFit(t, b, deviceClass, minComputeTFLOPS, e)
  {
    var (wantMIG, wantGPU) := BranchesFor(deviceClass);
    var branches := [];
    var groups := [];
    if wantMIG {
      groups := ComputeMigGroups(t, b, minComputeTFLOPS);
      if groups != [] {
        var clauses := [];
        for i := 0 to |groups|
          invariant clauses == MigClauses(groups)[..i]
        {
          clauses := clauses + [MigClause(groups[i])];
        }
        assert clauses == MigClauses(groups);
        branches := branches + [And(AttrIs(NVIDIA_DOMAIN, "type", "mig"), OrAny(clauses))];
      }
    }
    var admitted := [];
    if wantGPU {
      admitted := AdmittedBoards(t, b, minComputeTFLOPS);
      if admitted != [] {
        branches := branches + [GpuBranch(admitted, b)];
      }
    }
    assert branches == Branches(deviceClass, groups, admitted, b);
    assert IsParts(t, b, deviceClass, minComputeTFLOPS, groups, admitted);
    e := Guarded(branches);
  }

  /** Same table, same inputs, same text: regeneration never flaps. */
  lemma NvidiaFitUnique(t: BoardTable, b: Bounds, deviceClass: string, minComputeTFLOPS: nat, e: Expr, f: Expr)
    requires IsNvidiaFit(t, b, deviceClass, minComputeTFLOPS, e)
    requires IsNvidiaFit(t, b, deviceClass, minComputeTFLOPS, f)
    ensures e == f
  {
    var gs, a :| IsParts(t, b, deviceClass, minComputeTFLOPS, gs, a) && e == Guarded(Branches(deviceClass, gs, a, b));
    var hs, c :| IsParts(t, b, deviceClass, minComputeTFLOPS, hs, c) && f == Guarded(Branches(deviceClass, hs, c, b));
    var (wantMIG, wantGPU) := BranchesFor(deviceClass);
    if wantMIG {
      MigGroupsUnique(t, b, minComputeTFLOPS, gs, hs);
    }
    if wantGPU {
      Text.LessIsOrdering();
      Sorting.StrictlySortedUnique(a, c, Text.Less);
    }
  }

  // ---- Correctness ---------------------------------------------------------------

  /** All three guards of the emitted expression hold. */
  predicate Guards(d: Device) {
    "type" in d.attributes && "productName" in d.attributes && "memory" in d.capacity
  }

  lemma MebibytesDecide(bytes: nat, n: nat)
    ensures bytes / MIB >= n <==> bytes >= n * MIB
  {
  }

  lemma ClauseCorrect(g: MigGroup, d: Device)
    requires Guards(d)
    ensures Eval(MigClause(g), NVIDIA_DOMAIN, d) ==
            Bool(StrOf(d, "productName").Some? && ProductOf(d) in g.products && MemoryMiB(d) >= g.thresholdMiB
                 && GetOr(d.capacity, "multiprocessors", 0) >= g.minSMs)
  {
    var n := NVIDIA_DOMAIN;
    var product := AttrAmong(n, "productName", g.products);
    var memory := CapAtLeast(n, "memory", g.thresholdMiB * MIB);
    EvalAttrTests(n, d, "productName", 0, "", g.products);
    EvalCapAtLeast(n, d, "memory", g.thresholdMiB * MIB);
    MebibytesDecide(d.capacity["memory"], g.thresholdMiB);
    EvalHas(n, d, "multiprocessors");
    EvalCapAtLeast(n, d, "multiprocessors", g.minSMs);
    var es := [product, memory] + SMTests(g.minSMs);
    assert es[0] == product && es[1] == memory;
    if g.minSMs > 0 {
      assert es[2] == HasCap(n, "multiprocessors") && es[3] == CapAtLeast(n, "multiprocessors", g.minSMs);
    }
    EvalAndAll(es, n, d);
    if Fails(es[0], n, d) || Fails(es[1], n, d) || (g.minSMs > 0 && (Fails(es[2], n, d) || Fails(es[3], n, d))) {
    } else {
      assert forall i :: 0 <= i < |es| ==> Holds(es[i], n, d);
    }
  }

  lemma MigBranchCorrect(t: BoardTable, b: Bounds, minComputeTFLOPS: nat, gs: seq<MigGroup>, d: Device)
    requires IsMigGroups(t, b, minComputeTFLOPS, gs) && gs != [] && Guards(d) && "" !in t.boards
    ensures Eval(MigBranch(gs), NVIDIA_DOMAIN, d) ==
            Bool(TypeOf(d) == "mig" && ProductOf(d) in t.boards
                 && PartitionFits(t.boards[ProductOf(d)], b, minComputeTFLOPS, d))
  {
    hide MigPair, MigClause, AndAll, OrAny;
    var n := NVIDIA_DOMAIN;
    var clauses := MigClauses(gs);
    var p := ProductOf(d);
    EvalAttrTests(n, d, "type", 0, "mig", []);
    var fits := p in t.boards && PartitionFits(t.boards[p], b, minComputeTFLOPS, d);
    forall i | 0 <= i < |gs|
      ensures Eval(clauses[i], n, d) == Bool(p in gs[i].products && fits)
    {
      assert gs[i] in gs;
      ClauseCorrect(gs[i], d);
      assert p in gs[i].products <==> Belongs(t, b, minComputeTFLOPS, gs[i], p);
    }
    EvalOrAny(clauses, n, d);
    if fits {
      GroupsPartitionAdmissible(t, b, minComputeTFLOPS, gs, p);
      var i :| 0 <= i < |gs| && p in gs[i].products;
      assert Holds(clauses[i], n, d);
    }
    assert forall i :: 0 <= i < |clauses| ==> IsBool(clauses[i], n, d);
    assert Eval(OrAny(clauses), n, d) == Bool(fits);
    assert Eval(MigBranch(gs), n, d) == AndValue(Eval(AttrIs(n, "type", "mig"), n, d), Eval(OrAny(clauses), n, d));
  }

  lemma GpuBranchCorrect(t: BoardTable, b: Bounds, minComputeTFLOPS: nat, admitted: seq<string>, d: Device)
    requires IsAdmitted(t, b, minComputeTFLOPS, admitted) && Guards(d) && "" !in t.boards
    ensures Eval(GpuBranch(admitted, b), NVIDIA_DOMAIN, d) ==
            Bool(TypeOf(d) == "gpu" && ProductOf(d) in t.boards
                 && BoardFits(t.boards[ProductOf(d)], b, minComputeTFLOPS, d))
  {
    var n := NVIDIA_DOMAIN;
    EvalAttrTests(n, d, "type", 0, "gpu", []);
    EvalAttrTests(n, d, "productName", 0, "", admitted);
    EvalCapAtLeast(n, d, "memory", MemFloorMiB(b) * MIB);
    MebibytesDecide(d.capacity["memory"], MemFloorMiB(b));
    var es := [AttrIs(n, "type", "gpu"), AttrAmong(n, "productName", admitted), CapAtLeast(n, "memory", MemFloorMiB(b) * MIB)];
    EvalAndAll(es, n, d);
    if Fails(es[0], n, d) || Fails(es[1], n, d) || Fails(es[2], n, d) {
    } else {
      assert forall i :: 0 <= i < |es| ==> Holds(es[i], n, d);
    }
  }

  lemma BranchesCorrect(t: BoardTable, b: Bounds, deviceClass: string, minComputeTFLOPS: nat,
                        gs: seq<MigGroup>, admitted: seq<string>, d: Device)
    requires IsParts(t, b, deviceClass, minComputeTFLOPS, gs, admitted)
    requires Guards(d) && "" !in t.boards
    ensures var bs := Branches(deviceClass, gs, admitted, b);
            if bs == [] then !Admits(t, b, deviceClass, minComputeTFLOPS, d)
            else Eval(OrAny(bs), NVIDIA_DOMAIN, d) == Bool(Admits(t, b, deviceClass, minComputeTFLOPS, d))
  {
    var (wantMIG, wantGPU) := BranchesFor(deviceClass);
    var p := ProductOf(d);
    var known := p in t.boards;
    var mig := wantMIG && TypeOf(d) == "mig" && known && PartitionFits(t.boards[p], b, minComputeTFLOPS, d);
    var gpu := wantGPU && TypeOf(d) == "gpu" && known && BoardFits(t.boards[p], b, minComputeTFLOPS, d);
    assert Admits(t, b, deviceClass, minComputeTFLOPS, d) <==> mig || gpu;
    if wantMIG {
      GroupsPartitionAdmissible(t, b, minComputeTFLOPS, gs, p);
      if gs != [] {
        MigBranchCorrect(t, b, minComputeTFLOPS, gs, d);
      }
    }
    if wantGPU {
      assert p in admitted <==> known && GpuAdmits(t.boards[p], b, minComputeTFLOPS);
      GpuBranchCorrect(t, b, minComputeTFLOPS, admitted, d);
    }
    DisjoinBranches(if wantMIG && gs != [] then [MigBranch(gs)] else [],
                    if wantGPU && admitted != [] then [GpuBranch(admitted, b)] else [], d, mig, gpu);
  }

  lemma DisjoinBranches(mig: seq<Expr>, gpu: seq<Expr>, d: Device, m: bool, g: bool)
    requires |mig| <= 1 && |gpu| <= 1
    requires if mig == [] then !m else Eval(mig[0], NVIDIA_DOMAIN, d) == Bool(m)
    requires if gpu == [] then !g else Eval(gpu[0], NVIDIA_DOMAIN, d) == Bool(g)
    ensures if mig + gpu == [] then !m && !g else Eval(OrAny(mig + gpu), NVIDIA_DOMAIN, d) == Bool(m || g)
  {
    var es := mig + gpu;
    if |es| == 2 {
      assert es[..1] == mig;
      assert OrAny(es) == Or(OrAny(mig), es[1]);
    }
  }

  /** Compiler correctness: on every device of the driver, whatever attributes or
      capacities it lacks and whichever types they carry (a version compared with a
      string being unequal), the emitted expression never raises an error and is true exactly when the evaluation counts the
      device and the device publishes memory. */
  lemma NvidiaFitCorrect(t: BoardTable, b: Bounds, deviceClass: string, minComputeTFLOPS: nat, e: Expr, d: Device)
    requires IsNvidiaFit(t, b, deviceClass, minComputeTFLOPS, e) && "" !in t.boards
    ensures Eval(e, NVIDIA_DOMAIN, d) ==
            Bool(Admits(t, b, deviceClass, minComputeTFLOPS, d) && "memory" in d.capacity)
  {
    var gs, admitted :| IsParts(t, b, deviceClass, minComputeTFLOPS, gs, admitted)
                        && e == Guarded(Branches(deviceClass, gs, admitted, b));
    var n := NVIDIA_DOMAIN;
    var bs := Branches(deviceClass, gs, admitted, b);
    if Guards(d) {
      BranchesCorrect(t, b, deviceClass, minComputeTFLOPS, gs, admitted, d);
    }
    if bs != [] {
      GuardedByAll(bs, n, d);
    }
  }

  /** A failed guard makes the whole expression false even where the guarded part errs. */
  lemma GuardedByAll(bs: seq<Expr>, driver: string, d: Device)
    requires bs != [] && driver == NVIDIA_DOMAIN
    ensures !Guards(d) ==> Fails(Guarded(bs), driver, d)
    ensures Guards(d) && IsBool(OrAny(bs), driver, d) ==> Eval(Guarded(bs), driver, d) == Eval(OrAny(bs), driver, d)
  {
    EvalHas(driver, d, "type");
    EvalHas(driver, d, "productName");
    EvalHas(driver, d, "memory");
    var es := [HasAttr(driver, "type"), HasAttr(driver, "productName"), HasCap(driver, "memory"), OrAny(bs)];
    EvalAndAll(es, driver, d);
    assert !Guards(d) ==> Fails(es[0], driver, d) || Fails(es[1], driver, d) || Fails(es[2], driver, d);
    if Guards(d) && IsBool(OrAny(bs), driver, d) {
      if Holds(es[3], driver, d) {
        assert forall i :: 0 <= i < |es| ==> Holds(es[i], driver, d);
      } else {
        assert Fails(es[3], driver, d);
      }
    }
  }

  /** With a positive memory floor the proviso is void: expression and
      evaluation agree on every device. */
  lemma NvidiaFitAgreesWithEvaluation(t: BoardTable, b: Bounds, deviceClass: string, minComputeTFLOPS: nat, e: Expr, d: Device)
    requires IsNvidiaFit(t, b, deviceClass, minComputeTFLOPS, e) && "" !in t.boards && b.memoryGi >= 1
    ensures Eval(e, NVIDIA_DOMAIN, d) == Bool(Admits(t, b, deviceClass, minComputeTFLOPS, d))
  {
    hide IsNvidiaFit, PartitionFits, BoardFits, Eval;
    NvidiaFitCorrect(t, b, deviceClass, minComputeTFLOPS, e, d);
    if Admits(t, b, deviceClass, minComputeTFLOPS, d) {
      AdmittedMeetsMemoryFloor(t.boards[ProductOf(d)], b, minComputeTFLOPS, d);
    }
  }

  lemma AdmittedMeetsMemoryFloor(board: NvidiaBoard, b: Bounds, minComputeTFLOPS: nat, d: Device)
    requires PartitionFits(board, b, minComputeTFLOPS, d) || BoardFits(board, b, minComputeTFLOPS, d)
    ensures MemoryMiB(d) >= MemFloorMiB(b)
  {
    hide MinSlices, Midpoint, MigMinSMs;
  }

  /** A board of which the class admits some device without asking for memory. */
  predicate Loose(board: NvidiaBoard, b: Bounds, deviceClass: string, minComputeTFLOPS: nat) {
    var (wantMIG, wantGPU) := BranchesFor(deviceClass);
    || (wantGPU && GpuAdmits(board, b, minComputeTFLOPS) && b.memoryGi == 0)
    || (wantMIG && MigPair(board, b, minComputeTFLOPS).Some? && MigPair(board, b, minComputeTFLOPS).value.0 == 0)
  }

  /** A device of board `p` that publishes no memory: whole, or a partition with as
      many multiprocessors as asked for. */
  function Memoryless(p: string, board: NvidiaBoard, b: Bounds, deviceClass: string, minComputeTFLOPS: nat): Device {
    var whole := BranchesFor(deviceClass).1 && GpuAdmits(board, b, minComputeTFLOPS) && b.memoryGi == 0;
    var pair := MigPair(board, b, minComputeTFLOPS);
    Device("device-0",
           map["type" := StrAttr(if whole then "gpu" else "mig"), "productName" := StrAttr(p)],
           map[],
           map["multiprocessors" := if pair.Some? then pair.value.1 else 0],
           None)
  }

  /** On a loose board the two part: such a device is counted, and rejected by the
      expression. */
  lemma LooseBoardParts(t: BoardTable, b: Bounds, deviceClass: string, minComputeTFLOPS: nat, e: Expr, p: string)
    requires IsNvidiaFit(t, b, deviceClass, minComputeTFLOPS, e) && "" !in t.boards
    requires p in t.boards && Loose(t.boards[p], b, deviceClass, minComputeTFLOPS)
    ensures var d := Memoryless(p, t.boards[p], b, deviceClass, minComputeTFLOPS);
            Admits(t, b, deviceClass, minComputeTFLOPS, d) && Fails(e, NVIDIA_DOMAIN, d)
  {
    hide IsNvidiaFit, MigPair, GpuAdmits, Eval;
    var d := Memoryless(p, t.boards[p], b, deviceClass, minComputeTFLOPS);
    assert ProductOf(d) == p && MemoryMiB(d) == 0;
    NvidiaFitCorrect(t, b, deviceClass, minComputeTFLOPS, e, d);
  }

  lemma MemorylessNeedsLoose(t: BoardTable, b: Bounds, deviceClass: string, minComputeTFLOPS: nat, d: Device)
    requires Admits(t, b, deviceClass, minComputeTFLOPS, d) && "memory" !in d.capacity
    ensures Loose(t.boards[ProductOf(d)], b, deviceClass, minComputeTFLOPS)
  {
    hide MigPair, GpuAdmits;
    assert MemoryMiB(d) == 0;
  }

  /** The exact condition, on table, bounds and class: expression and evaluation
      agree on every device if and only if no board of the table is loose. */
  lemma NvidiaFitAgreesIff(t: BoardTable, b: Bounds, deviceClass: string, minComputeTFLOPS: nat, e: Expr)
    requires IsNvidiaFit(t, b, deviceClass, minComputeTFLOPS, e) && "" !in t.boards
    ensures (forall d :: Eval(e, NVIDIA_DOMAIN, d) == Bool(Admits(t, b, deviceClass, minComputeTFLOPS, d)))
            <==> forall p :: p in t.boards ==> !Loose(t.boards[p], b, deviceClass, minComputeTFLOPS)
  {
    hide IsNvidiaFit, Admits, Loose, Memoryless, Eval;
    if p :| p in t.boards && Loose(t.boards[p], b, deviceClass, minComputeTFLOPS) {
      LooseBoardParts(t, b, deviceClass, minComputeTFLOPS, e, p);
      var d := Memoryless(p, t.boards[p], b, deviceClass, minComputeTFLOPS);
      assert Eval(e, NVIDIA_DOMAIN, d) != Bool(Admits(t, b, deviceClass, minComputeTFLOPS, d));
    } else {
      forall d
        ensures Eval(e, NVIDIA_DOMAIN, d) == Bool(Admits(t, b, deviceClass, minComputeTFLOPS, d))
      {
        NvidiaFitCorrect(t, b, deviceClass, minComputeTFLOPS, e, d);
        if Admits(t, b, deviceClass, minComputeTFLOPS, d) && "memory" !in d.capacity {
          AdmittedIsKnown(t, b, deviceClass, minComputeTFLOPS, d);
          MemorylessNeedsLoose(t, b, deviceClass, minComputeTFLOPS, d);
        }
      }
    }
  }

  lemma AdmittedIsKnown(t: BoardTable, b: Bounds, deviceClass: string, minComputeTFLOPS: nat, d: Device)
    requires Admits(t, b, deviceClass, minComputeTFLOPS, d)
    ensures ProductOf(d) in t.boards
  {
  }

  /** Devices of any other driver never match and never raise an error. */
  lemma ForeignDriverNeverMatches(t: BoardTable, b: Bounds, deviceClass: string, minComputeTFLOPS: nat,
                                  e: Expr, driver: string, d: Device)
    requires IsNvidiaFit(t, b, deviceClass, minComputeTFLOPS, e) && driver != NVIDIA_DOMAIN
    ensures Fails(e, driver, d)
  {
    var gs, admitted :| IsParts(t, b, deviceClass, minComputeTFLOPS, gs, admitted)
                        && e == Guarded(Branches(deviceClass, gs, admitted, b));
    var bs := Branches(deviceClass, gs, admitted, b);
    hide IsParts, Branches;
    if bs != [] {
      var es := [HasAttr(NVIDIA_DOMAIN, "type"), HasAttr(NVIDIA_DOMAIN, "productName"), HasCap(NVIDIA_DOMAIN, "memory"), OrAny(bs)];
      assert Eval(Attributes(NVIDIA_DOMAIN), driver, d) == Map(map[]) by {
        assert NVIDIA_DOMAIN != STANDARD_DOMAIN;
      }
      assert Eval(Const(Str("type")), driver, d) == Str("type");
      assert Fails(es[0], driver, d);
      EvalAndAll(es, driver, d);
    }
  }

  // ---- What a verdict means, in numbers ---------------------------------------------

  predicate IsOf(d: Device, deviceType: string, p: string) {
    StrOf(d, "type") == Some(deviceType) && StrOf(d, "productName") == Some(p)
  }

  lemma MemoryFloorInBytes(b: Bounds, d: Device)
    ensures MemoryMiB(d) >= MemFloorMiB(b) <==> GetOr(d.capacity, "memory", 0) >= b.memoryGi * 1073741824
  {
    MebibytesDecide(GetOr(d.capacity, "memory", 0), b.memoryGi * 1024);
  }

  /** A partition that publishes a tolerated share of `j` slices of a separated board is
      admitted, and selected by the expression, if and only if the class wants
      partitions, its bytes reach the memory floor, its slices' share of the board's
      bandwidth the bandwidth floor, and its multiprocessors' share of the board's
      compute the compute floor. */
  lemma PartitionVerdict(t: BoardTable, b: Bounds, deviceClass: string, floor: nat, e: Expr, d: Device, p: string, j: nat)
    requires IsNvidiaFit(t, b, deviceClass, floor, e) && "" !in t.boards
    requires IsOf(d, "mig", p) && p in t.boards && MigCapable(t.boards[p]) && Separated(t.boards[p])
    requires Partition(t.boards[p], j, MemoryMiB(d))
    ensures var board := t.boards[p];
            var sms := GetOr(d.capacity, "multiprocessors", 0);
            var fits :=
              && deviceClass != "gpu.nvidia.com"
              && GetOr(d.capacity, "memory", 0) >= b.memoryGi * 1073741824
              && j * board.memoryBandwidthGBs >= b.minBandwidthGBs * board.memorySlices
              && (floor == 0 || (board.smCount > 0 && board.computeTFLOPS >= floor
                                 && sms * board.computeTFLOPS >= floor * board.smCount));
            && (Admits(t, b, deviceClass, floor, d) <==> fits)
            && (Holds(e, NVIDIA_DOMAIN, d) <==> fits && "memory" in d.capacity)
  {
    hide IsNvidiaFit, MigThresholdMiB, MigMinSMs, Eval, Separated, Partition, MemFloorMiB;
    NvidiaFitCorrect(t, b, deviceClass, floor, e, d);
    ThresholdDecidesBothFloors(t.boards[p], b, j, MemoryMiB(d));
    MinSMsDecideCompute(t.boards[p], floor, GetOr(d.capacity, "multiprocessors", 0));
    MemoryFloorInBytes(b, d);
  }

  /** On any board whatsoever, whatever the partition publishes, nothing is admitted or
      selected that misses the memory floor in bytes or the compute floor in shares. */
  lemma PartitionNeverMissesFloors(t: BoardTable, b: Bounds, deviceClass: string, floor: nat, e: Expr, d: Device)
    requires IsNvidiaFit(t, b, deviceClass, floor, e) && "" !in t.boards
    requires Admits(t, b, deviceClass, floor, d) || Holds(e, NVIDIA_DOMAIN, d)
    ensures GetOr(d.capacity, "memory", 0) >= b.memoryGi * 1073741824
    ensures exists p :: p in t.boards && StrOf(d, "productName") == Some(p) && t.boards[p].computeTFLOPS >= floor
              && (StrOf(d, "type") == Some("mig") ==>
                    GetOr(d.capacity, "multiprocessors", 0) * t.boards[p].computeTFLOPS >= floor * t.boards[p].smCount)
  {
    hide IsNvidiaFit, MigThresholdMiB, MigMinSMs, Eval, MemFloorMiB;
    NvidiaFitCorrect(t, b, deviceClass, floor, e, d);
    var p := ProductOf(d);
    var sms := GetOr(d.capacity, "multiprocessors", 0);
    AdmittedMeetsMemoryFloor(t.boards[p], b, floor, d);
    MemoryFloorInBytes(b, d);
    MinSMsDecideCompute(t.boards[p], floor, sms);
    assert floor == 0 ==> floor * t.boards[p].smCount == 0 <= sms * t.boards[p].computeTFLOPS;
    assert StrOf(d, "productName") == Some(p);
  }

  /** A full GPU is admitted, and selected, if and only if the class wants full GPUs,
      its bytes and its board's memory reach the memory floor, and its board's peak
      bandwidth and compute reach theirs. */
  lemma BoardVerdict(t: BoardTable, b: Bounds, deviceClass: string, floor: nat, e: Expr, d: Device, p: string)
    requires IsNvidiaFit(t, b, deviceClass, floor, e) && "" !in t.boards
    requires IsOf(d, "gpu", p) && p in t.boards
    ensures var board := t.boards[p];
            var fits :=
              && deviceClass != "mig.nvidia.com"
              && GetOr(d.capacity, "memory", 0) >= b.memoryGi * 1073741824
              && board.memoryMiB >= b.memoryGi * 1024
              && board.memoryBandwidthGBs >= b.minBandwidthGBs
              && board.computeTFLOPS >= floor;
            && (Admits(t, b, deviceClass, floor, d) <==> fits)
            && (Holds(e, NVIDIA_DOMAIN, d) <==> fits && "memory" in d.capacity)
  {
    hide IsNvidiaFit, Eval;
    NvidiaFitCorrect(t, b, deviceClass, floor, e, d);
    MemoryFloorInBytes(b, d);
  }

  /** The class decides the device types: partitions only, full GPUs only, and under any
      other name exactly what either of the two admits. */
  lemma ClassesDivideDevices(t: BoardTable, b: Bounds, deviceClass: string, floor: nat, d: Device)
    ensures Admits(t, b, "mig.nvidia.com", floor, d) ==> StrOf(d, "type") == Some("mig")
    ensures Admits(t, b, "gpu.nvidia.com", floor, d) ==> StrOf(d, "type") == Some("gpu")
    ensures deviceClass != "mig.nvidia.com" && deviceClass != "gpu.nvidia.com" ==>
              (Admits(t, b, deviceClass, floor, d) <==>
                 Admits(t, b, "mig.nvidia.com", floor, d) || Admits(t, b, "gpu.nvidia.com", floor, d))
  {
    hide PartitionFits, BoardFits;
  }

  // ---- Tightening -------------------------------------------------------------------

  /** Raising any floor never turns a rejected device into a candidate. */
  lemma AdmitsAntitone(t: BoardTable, b: Bounds, tight: Bounds, deviceClass: string, floor: nat, higher: nat, d: Device)
    requires Tighter(b, tight) && floor <= higher && Admits(t, tight, deviceClass, higher, d)
    ensures Admits(t, b, deviceClass, floor, d)
  {
    if TypeOf(d) == "mig" {
      var board := t.boards[ProductOf(d)];
      ThresholdMonotone(board, b, tight);
      MinSMsMonotone(board, floor, higher);
    }
  }
}
