/** What the satisfiability snapshot means, for either backend: sets of device
    slots over the published slices, with no loop and no order of evaluation
    (internal/modelclaim/satisfiable.go, internal/modelclaim/satisfiable_nvidia.go). */
module Slots {
  import opened Prelude
  import opened Resources
  import opened Boards
  import opened Arith
  import opened MigPhysics
  import MigGroups
  import LlmfitFit
  import NvidiaFit
  import Text

  /** One evaluation: a backend with the bounds, class and compute floor it checks. */
  datatype Query =
    | Llmfit(b: Bounds, deviceClass: string, floor: nat)
    | Nvidia(b: Bounds, deviceClass: string, floor: nat, t: BoardTable)

  function DriverOf(q: Query): string {
    if q.Llmfit? then LLMFIT_DOMAIN else NVIDIA_DOMAIN
  }

  /** What one device is to the evaluation. */
  datatype Kind = Ignored | Excluded | Unknown | Rejected | Candidate

  datatype Constraint = Memory | Bandwidth | Compute | Health | Feasibility | Multiprocessors

  predicate Admits(q: Query, d: Device) {
    match q
    case Llmfit(b, c, f) => LlmfitFit.Admits(b, c, f, d)
    case Nvidia(b, c, f, t) => NvidiaFit.Admits(t, b, c, f, d)
  }

  function Classify(q: Query, d: Device): Kind {
    match q
    case Llmfit(b, c, f) =>
      if !LlmfitFit.KindMatches(c, d) then Ignored
      else if LlmfitFit.Excluded(c, d) then Excluded
      else if LlmfitFit.Fits(b, c, f, d) then Candidate
      else Rejected
    case Nvidia(b, c, f, t) =>
      if !NvidiaFit.Wanted(c, d) then Ignored
      else if NvidiaFit.ProductOf(d) !in t.boards then Unknown
      else if NvidiaFit.Admits(t, b, c, f, d) then Candidate
      else Rejected
  }

  // ---- Diagnostics per device ------------------------------------------------

  /** The memory threshold in MiB and the multiprocessor floor for a device of a
      known board; None when no partition of the board can do. */
  function NvidiaFloors(board: NvidiaBoard, b: Bounds, floor: nat, d: Device): Option<(nat, nat)> {
    if NvidiaFit.TypeOf(d) == "mig" then MigGroups.MigPair(board, b, floor)
    else if GpuAdmits(board, b, floor) then Some((MemFloorMiB(b), 0))
    else None
  }

  function NvidiaBoardOf(t: BoardTable, d: Device): NvidiaBoard
    requires NvidiaFit.ProductOf(d) in t.boards
  {
    t.boards[NvidiaFit.ProductOf(d)]
  }

  predicate Judged(q: Query, d: Device) {
    Classify(q, d) in {Candidate, Rejected}
  }

  /** Whether a judged device meets one constraint. */
  predicate Meets(q: Query, c: Constraint, d: Device)
    requires Judged(q, d)
  {
    match q
    case Llmfit(b, class_, f) =>
      (match c
       case Memory => LlmfitFit.MemOK(b, d)
       case Bandwidth => LlmfitFit.BwOK(b, class_, d)
       case Compute => LlmfitFit.ComputeOK(f, d)
       case Health => LlmfitFit.HealthyOK(d)
       case _ => true)
    case Nvidia(b, _, f, t) =>
      var floors := NvidiaFloors(NvidiaBoardOf(t, d), b, f, d);
      (match c
       case Feasibility => floors.Some?
       case Memory => floors.Some? ==> NvidiaFit.MemoryMiB(d) >= floors.value.0
       case Multiprocessors => floors.Some? ==> GetOr(d.capacity, "multiprocessors", 0) >= floors.value.1
       case _ => true)
  }

  const CONSTRAINTS: set<Constraint> := {Memory, Bandwidth, Compute, Health, Feasibility, Multiprocessors}

  function Failing(q: Query, d: Device): set<Constraint>
    requires Judged(q, d)
  {
    set c | c in CONSTRAINTS && !Meets(q, c, d)
  }

  /** A device is a candidate exactly when nothing fails, so a reject always has a reason. */
  lemma CandidateIffNothingFails(q: Query, d: Device)
    requires Judged(q, d)
    ensures Failing(q, d) == {} <==> Admits(q, d)
    ensures Classify(q, d) == Rejected ==> Failing(q, d) != {}
  {
    forall c: Constraint
      ensures c in CONSTRAINTS
    {
      match c
      case Memory =>
      case Bandwidth =>
      case Compute =>
      case Health =>
      case Feasibility =>
      case Multiprocessors =>
    }
    assert Failing(q, d) == {} <==> forall c :: c in CONSTRAINTS ==> Meets(q, c, d) by {
      assert forall c :: c in CONSTRAINTS && !Meets(q, c, d) ==> c in Failing(q, d);
    }
    if q.Llmfit? {
      assert Admits(q, d) <==>
        Meets(q, Memory, d) && Meets(q, Bandwidth, d) && Meets(q, Compute, d) && Meets(q, Health, d);
    } else {
      assert Admits(q, d) <==> Meets(q, Feasibility, d) && Meets(q, Memory, d) && Meets(q, Multiprocessors, d);
    }
  }

  function Ratio(have: int, want: nat): real {
    if want > 0 && have > 0 then have as real / want as real else 0.0
  }

  function Met(ok: bool): real {
    if ok then 1.0 else 0.0
  }

  /** How close a reject comes: constraints met, then bandwidth. */
  function Score(q: Query, d: Device): real
    requires Judged(q, d)
  {
    match q
    case Llmfit(b, c, f) =>
      Met(LlmfitFit.MemOK(b, d)) + Met(LlmfitFit.BwOK(b, c, d)) + Met(LlmfitFit.ComputeOK(f, d)) + Met(LlmfitFit.HealthyOK(d))
      + Ratio(PublishedBandwidth(d), b.minBandwidthGBs) * 0.1
    case Nvidia(b, _, _, t) =>
      Ratio(DerivedBandwidth(NvidiaBoardOf(t, d), d), b.minBandwidthGBs)
  }

  function PublishedBandwidth(d: Device): int {
    if IntOf(d, "memoryBandwidthGBs").Some? then IntOf(d, "memoryBandwidthGBs").value else 0
  }

  function DerivedBandwidth(board: NvidiaBoard, d: Device): nat {
    if board.memoryMiB > 0 then
      var n: nat := board.memoryBandwidthGBs * NvidiaFit.MemoryMiB(d);
      n / board.memoryMiB
    else 0
  }

  /** The derived bandwidth is the device's share of its board's peak, rounded down. */
  lemma DerivedBandwidthIsShare(board: NvidiaBoard, d: Device, n: nat)
    ensures board.memoryMiB > 0 ==>
      (n <= DerivedBandwidth(board, d) <==> n * board.memoryMiB <= board.memoryBandwidthGBs * (GetOr(d.capacity, "memory", 0) / 1048576))
    ensures board.memoryMiB == 0 ==> DerivedBandwidth(board, d) == 0
  {
    if board.memoryMiB > 0 {
      QuotientIsGreatest(board.memoryBandwidthGBs * NvidiaFit.MemoryMiB(d), board.memoryMiB, n);
    }
  }

  /** What the nearest miss of the llmfit backend is said to fail, in numbers. */
  lemma LlmfitReasons(q: Query, d: Device)
    requires q.Llmfit? && Judged(q, d)
    ensures Memory in Failing(q, d) <==> !("memory" in d.capacity && d.capacity["memory"] >= q.b.memoryGi * 1073741824)
    ensures Bandwidth in Failing(q, d) <==>
      q.deviceClass != "cpu.llmfit.ai" &&
      !(IntOf(d, "memoryBandwidthGBs").Some? && IntOf(d, "memoryBandwidthGBs").value >= q.b.minBandwidthGBs)
    ensures Compute in Failing(q, d) <==>
      q.floor > 0 && !(IntOf(d, "computeTFLOPS").Some? && IntOf(d, "computeTFLOPS").value >= q.floor)
    ensures Health in Failing(q, d) <==> BoolOf(d, "healthy") != Some(true)
    ensures Feasibility !in Failing(q, d) && Multiprocessors !in Failing(q, d)
  {
  }

  /** And of the NVIDIA backend: a full GPU is infeasible when its board is, short of
      memory when its bytes are; a partition is short of multiprocessors when their
      share of the board's compute misses the floor; an infeasible device fails
      nothing else. */
  lemma NvidiaReasons(q: Query, d: Device)
    requires q.Nvidia? && Judged(q, d)
    ensures var board := NvidiaBoardOf(q.t, d);
            var whole := StrOf(d, "type") == Some("gpu");
            var sms := GetOr(d.capacity, "multiprocessors", 0);
            && (whole ==> (Feasibility in Failing(q, d) <==>
                  !(board.memoryMiB >= q.b.memoryGi * 1024 && board.memoryBandwidthGBs >= q.b.minBandwidthGBs && board.computeTFLOPS >= q.floor)))
            && (whole && Feasibility !in Failing(q, d) ==>
                  (Memory in Failing(q, d) <==> GetOr(d.capacity, "memory", 0) < q.b.memoryGi * 1073741824))
            && (whole ==> Multiprocessors !in Failing(q, d))
            && (!whole && Feasibility !in Failing(q, d) ==>
                  (Multiprocessors in Failing(q, d) <==> sms * board.computeTFLOPS < q.floor * board.smCount))
            && (Feasibility in Failing(q, d) ==> Failing(q, d) == {Feasibility})
            && Bandwidth !in Failing(q, d) && Compute !in Failing(q, d) && Health !in Failing(q, d)
  {
    JudgedTypes(q, d);
    hide Classify, MigThresholdMiB, MigMinSMs;
    NvidiaFit.MemoryFloorInBytes(q.b, d);
    if MigMinSMs(NvidiaBoardOf(q.t, d), q.floor).Some? {
      ShortOfMultiprocessors(NvidiaBoardOf(q.t, d), q.floor, GetOr(d.capacity, "multiprocessors", 0));
    }
  }

  lemma ShortOfMultiprocessors(board: NvidiaBoard, floor: nat, sms: nat)
    requires MigMinSMs(board, floor).Some?
    ensures sms < MigMinSMs(board, floor).value <==> sms * board.computeTFLOPS < floor * board.smCount
  {
    hide MigMinSMs;
    MinSMsDecideCompute(board, floor, sms);
    MinSMsDecideCompute(board, floor, MigMinSMs(board, floor).value);
    assert floor == 0 ==> floor * board.smCount == 0 <= sms * board.computeTFLOPS;
  }

  lemma JudgedTypes(q: Query, d: Device)
    requires q.Nvidia? && Judged(q, d)
    ensures StrOf(d, "type") == Some("mig") || StrOf(d, "type") == Some("gpu")
    ensures NvidiaFit.ProductOf(d) in q.t.boards
  {
    hide NvidiaFit.PartitionFits, NvidiaFit.BoardFits;
  }

  // ---- Slots -------------------------------------------------------------------

  type Slot = (nat, nat)

  /** Reading order: slice by slice, device by device. */
  predicate Before(s: Slot, p: Slot) {
    s.0 < p.0 || (s.0 == p.0 && s.1 < p.1)
  }

  predicate InRange(slices: seq<Slice>, s: Slot) {
    s.0 < |slices| && s.1 < |slices[s.0].devices|
  }

  function DeviceAt(slices: seq<Slice>, s: Slot): Device
    requires InRange(slices, s)
  {
    slices[s.0].devices[s.1]
  }

  /** The allocation key "pool/device". */
  function DeviceKey(pool: string, device: string): string {
    pool + "/" + device
  }

  function KeyAt(slices: seq<Slice>, s: Slot): string
    requires InRange(slices, s)
  {
    DeviceKey(slices[s.0].pool, DeviceAt(slices, s).name)
  }

  /** Of the driver, and of the newest generation published for its pool. */
  ghost predicate IsCurrent(slices: seq<Slice>, driver: string, i: nat)
    requires i < |slices|
  {
    && slices[i].driver == driver
    && forall k :: 0 <= k < |slices| && slices[k].driver == driver && slices[k].pool == slices[i].pool ==>
         slices[k].generation <= slices[i].generation
  }

  ghost predicate IsAt(k: Kind, q: Query, slices: seq<Slice>, s: Slot) {
    InRange(slices, s) && IsCurrent(slices, DriverOf(q), s.0) && Classify(q, DeviceAt(slices, s)) == k
  }

  ghost function AllSlots(slices: seq<Slice>): set<Slot> {
    set i: nat, j: nat | i < |slices| && j < |slices[i].devices| :: (i, j)
  }

  /** The slots of one kind that stand before position `p`. */
  ghost function SlotsBefore(k: Kind, q: Query, slices: seq<Slice>, p: Slot): set<Slot> {
    set s | s in AllSlots(slices) && IsAt(k, q, slices, s) && Before(s, p)
  }

  ghost function SlotsOf(k: Kind, q: Query, slices: seq<Slice>): set<Slot> {
    set s | s in AllSlots(slices) && IsAt(k, q, slices, s)
  }

  ghost function NodesOf(slices: seq<Slice>, slots: set<Slot>): set<string> {
    set s | s in slots && s.0 < |slices| && NodeOf(slices[s.0]) != "" :: NodeOf(slices[s.0])
  }

  ghost function FreeOf(slices: seq<Slice>, held: set<string>, slots: set<Slot>): set<Slot> {
    set s | s in slots && InRange(slices, s) && KeyAt(slices, s) !in held
  }

  /** Nodes are the distinct names that slices give, unnamed slices aside. */
  lemma NodesAreNamed(slices: seq<Slice>, slots: set<Slot>, n: string)
    ensures n in NodesOf(slices, slots) <==>
            n != "" && exists s :: s in slots && s.0 < |slices| && slices[s.0].node == Some(n)
  {
    if s :| s in slots && s.0 < |slices| && NodeOf(slices[s.0]) != "" && NodeOf(slices[s.0]) == n {
      assert slices[s.0].node == Some(n);
    }
    if s :| n != "" && s in slots && s.0 < |slices| && slices[s.0].node == Some(n) {
      assert NodeOf(slices[s.0]) == n;
    }
  }

  // ---- The three counts ------------------------------------------------------------

  ghost function Devices(q: Query, slices: seq<Slice>): nat {
    |SlotsOf(Candidate, q, slices)|
  }

  ghost function Nodes(q: Query, slices: seq<Slice>): nat {
    |NodesOf(slices, SlotsOf(Candidate, q, slices))|
  }

  ghost function Available(q: Query, slices: seq<Slice>, held: set<string>): nat {
    |FreeOf(slices, held, SlotsOf(Candidate, q, slices))|
  }

  // ---- Tightening --------------------------------------------------------------------

  /** The same question with every floor at least as high. */
  predicate TighterQuery(q: Query, r: Query) {
    && Tighter(q.b, r.b) && q.deviceClass == r.deviceClass && q.floor <= r.floor
    && (q.Llmfit? <==> r.Llmfit?) && (q.Nvidia? && r.Nvidia? ==> q.t == r.t)
  }

  lemma AdmitsAntitone(q: Query, r: Query, d: Device)
    requires TighterQuery(q, r) && Classify(r, d) == Candidate
    ensures Classify(q, d) == Candidate
  {
    if q.Nvidia? {
      NvidiaFit.AdmitsAntitone(q.t, q.b, r.b, q.deviceClass, q.floor, r.floor, d);
    } else {
      assert LlmfitFit.Fits(r.b, r.deviceClass, r.floor, d) ==> LlmfitFit.Fits(q.b, q.deviceClass, q.floor, d);
    }
  }

  /** Raising the memory, bandwidth or compute floor never raises a count, on
      either backend. */
  lemma CountsAntitone(q: Query, r: Query, slices: seq<Slice>, held: set<string>)
    requires TighterQuery(q, r)
    ensures Devices(r, slices) <= Devices(q, slices)
    ensures Nodes(r, slices) <= Nodes(q, slices)
    ensures Available(r, slices, held) <= Available(q, slices, held)
  {
    var a, c := SlotsOf(Candidate, r, slices), SlotsOf(Candidate, q, slices);
    forall s | s in a
      ensures s in c
    {
      AdmitsAntitone(q, r, DeviceAt(slices, s));
    }
    SubsetBoundsCardinality(a, c);
    SubsetBoundsCardinality(NodesOf(slices, a), NodesOf(slices, c));
    SubsetBoundsCardinality(FreeOf(slices, held, a), FreeOf(slices, held, c));
  }

  // ---- What cannot change a count ------------------------------------------------------

  /** `f` sends every current slice of `a` to an equal current slice of `c`, never
      two to the same one. */
  ghost predicate Embeds(driver: string, a: seq<Slice>, c: seq<Slice>, f: nat -> nat) {
    && (forall i: nat :: i < |a| && IsCurrent(a, driver, i) ==>
          f(i) < |c| && c[f(i)] == a[i] && IsCurrent(c, driver, f(i)))
    && (forall i: nat, j: nat :: i < |a| && j < |a| && IsCurrent(a, driver, i) && IsCurrent(a, driver, j) && f(i) == f(j) ==>
          i == j)
  }

  lemma EmbeddingBoundsCounts(q: Query, a: seq<Slice>, c: seq<Slice>, f: nat -> nat, held: set<string>)
    requires Embeds(DriverOf(q), a, c, f)
    ensures Devices(q, a) <= Devices(q, c)
    ensures Nodes(q, a) <= Nodes(q, c)
    ensures Available(q, a, held) <= Available(q, c, held)
  {
    var x, y := SlotsOf(Candidate, q, a), SlotsOf(Candidate, q, c);
    var g := (s: Slot) => (f(s.0), s.1);
    forall s | s in x
      ensures g(s) in y && c[g(s).0] == a[s.0]
    {
      assert IsCurrent(a, DriverOf(q), s.0);
      assert IsAt(Candidate, q, c, g(s));
    }
    InjectionBoundsCardinality(x, y, g);
    InjectionBoundsCardinality(FreeOf(a, held, x), FreeOf(c, held, y), g);
    forall n | n in NodesOf(a, x)
      ensures n in NodesOf(c, y)
    {
      var s :| s in x && NodeOf(a[s.0]) == n;
      assert g(s) in y;
    }
    SubsetBoundsCardinality(NodesOf(a, x), NodesOf(c, y));
  }

  /** Reordered sequences match up index by index. */
  lemma {:induction false} MatchUp<T>(a: seq<T>, c: seq<T>) returns (f: seq<nat>)
    requires multiset(a) == multiset(c)
    ensures |f| == |a|
    ensures forall i :: 0 <= i < |a| ==> f[i] < |c| && c[f[i]] == a[i]
    ensures forall i, j :: 0 <= i < j < |a| ==> f[i] != f[j]
  {
    if a == [] {
      f := [];
    } else {
      var n := |a| - 1;
      assert a[n] in multiset(a);
      var k :| 0 <= k < |c| && c[k] == a[n];
      var rest := c[..k] + c[k + 1..];
      RemoveMatched(a, c, k);
      var g := MatchUp(a[..n], rest);
      f := seq(n, i requires 0 <= i < n => if g[i] < k then g[i] else g[i] + 1) + [k];
    }
  }

  lemma RemoveMatched<T>(a: seq<T>, c: seq<T>, k: nat)
    requires multiset(a) == multiset(c) && a != [] && k < |c| && c[k] == a[|a| - 1]
    ensures multiset(a[..|a| - 1]) == multiset(c[..k] + c[k + 1..])
  {
    RemoveOne(a, |a| - 1);
    RemoveOne(c, k);
    assert a[..|a| - 1] + a[|a| - 1 + 1..] == a[..|a| - 1];
  }

  lemma RemoveOne<T>(a: seq<T>, k: nat)
    requires k < |a|
    ensures multiset(a[..k] + a[k + 1..]) == multiset(a) - multiset{a[k]}
  {
    assert a == a[..k] + [a[k]] + a[k + 1..];
  }

  lemma SameSlicesSameCurrency(driver: string, a: seq<Slice>, c: seq<Slice>, i: nat, j: nat)
    requires multiset(a) == multiset(c) && i < |a| && j < |c| && a[i] == c[j] && IsCurrent(a, driver, i)
    ensures IsCurrent(c, driver, j)
  {
    forall k | 0 <= k < |c| && c[k].driver == driver && c[k].pool == c[j].pool
      ensures c[k].generation <= c[j].generation
    {
      assert c[k] in multiset(c);
      assert c[k] in a;
    }
  }

  lemma PermutationEmbeds(driver: string, a: seq<Slice>, c: seq<Slice>) returns (f: nat -> nat)
    requires multiset(a) == multiset(c)
    ensures Embeds(driver, a, c, f)
  {
    var m := MatchUp(a, c);
    f := (i: nat) => if i < |m| then m[i] else 0;
    forall i: nat | i < |a| && IsCurrent(a, driver, i)
      ensures f(i) < |c| && c[f(i)] == a[i] && IsCurrent(c, driver, f(i))
    {
      SameSlicesSameCurrency(driver, a, c, i, f(i));
    }
  }

  /** The order in which slices arrive does not matter. */
  lemma PermutingSlicesKeepsCounts(q: Query, a: seq<Slice>, c: seq<Slice>, held: set<string>)
    requires multiset(a) == multiset(c)
    ensures Devices(q, a) == Devices(q, c) && Nodes(q, a) == Nodes(q, c) && Available(q, a, held) == Available(q, c, held)
  {
    var f := PermutationEmbeds(DriverOf(q), a, c);
    var g := PermutationEmbeds(DriverOf(q), c, a);
    EmbeddingBoundsCounts(q, a, c, f, held);
    EmbeddingBoundsCounts(q, c, a, g, held);
  }

  /** A newer generation of the same pool is present. */
  ghost predicate Superseded(slices: seq<Slice>, k: nat)
    requires k < |slices|
  {
    exists m :: 0 <= m < |slices| && slices[m].driver == slices[k].driver && slices[m].pool == slices[k].pool
                && slices[m].generation > slices[k].generation
  }

  /** The list without slice `k`, and where each other slice moves. */
  function Without(a: seq<Slice>, k: nat): seq<Slice>
    requires k < |a|
  {
    a[..k] + a[k + 1..]
  }

  function Moved(k: nat, i: nat): nat
    requires i != k
  {
    if i < k then i else i - 1
  }

  lemma DroppingKeepsCurrency(driver: string, a: seq<Slice>, k: nat, i: nat)
    requires k < |a| && Superseded(a, k) && i < |a| && i != k
    ensures Without(a, k)[Moved(k, i)] == a[i]
    ensures IsCurrent(a, driver, i) <==> IsCurrent(Without(a, k), driver, Moved(k, i))
  {
    var c := Without(a, k);
    var j := Moved(k, i);
    if IsCurrent(a, driver, i) {
      forall n | 0 <= n < |c| && c[n].driver == driver && c[n].pool == c[j].pool
        ensures c[n].generation <= c[j].generation
      {
        assert c[n] == a[if n < k then n else n + 1];
      }
    }
    if IsCurrent(c, driver, j) {
      var m :| 0 <= m < |a| && a[m].driver == a[k].driver && a[m].pool == a[k].pool && a[m].generation > a[k].generation;
      assert c[Moved(k, m)] == a[m];
      forall n | 0 <= n < |a| && a[n].driver == driver && a[n].pool == a[i].pool
        ensures a[n].generation <= a[i].generation
      {
        if n != k {
          assert c[Moved(k, n)] == a[n];
        }
      }
    }
  }

  /** During a pool update the informer holds old and new slices; the old ones
      are invisible: adding or removing one changes no count. */
  lemma SupersededSliceKeepsCounts(q: Query, a: seq<Slice>, k: nat, held: set<string>)
    requires k < |a| && Superseded(a, k)
    ensures Devices(q, Without(a, k)) == Devices(q, a)
    ensures Nodes(q, Without(a, k)) == Nodes(q, a)
    ensures Available(q, Without(a, k), held) == Available(q, a, held)
  {
    var c := Without(a, k);
    var down := DropEmbeds(DriverOf(q), a, k);
    var up := UndropEmbeds(DriverOf(q), a, k);
    EmbeddingBoundsCounts(q, a, c, down, held);
    EmbeddingBoundsCounts(q, c, a, up, held);
  }

  lemma DropEmbeds(driver: string, a: seq<Slice>, k: nat) returns (f: nat -> nat)
    requires k < |a| && Superseded(a, k)
    ensures Embeds(driver, a, Without(a, k), f)
  {
    f := (i: nat) => if i == k then 0 else Moved(k, i);
    assert !IsCurrent(a, driver, k);
    forall i: nat | i < |a| && IsCurrent(a, driver, i)
      ensures f(i) < |Without(a, k)| && Without(a, k)[f(i)] == a[i] && IsCurrent(Without(a, k), driver, f(i))
    {
      DroppingKeepsCurrency(driver, a, k, i);
    }
  }

  lemma UndropEmbeds(driver: string, a: seq<Slice>, k: nat) returns (f: nat -> nat)
    requires k < |a| && Superseded(a, k)
    ensures Embeds(driver, Without(a, k), a, f)
  {
    var c := Without(a, k);
    f := (i: nat) => if i < k then i else i + 1;
    forall i: nat | i < |c| && IsCurrent(c, driver, i)
      ensures f(i) < |a| && a[f(i)] == c[i] && IsCurrent(a, driver, f(i))
    {
      DroppingKeepsCurrency(driver, a, k, f(i));
    }
  }

  // ---- Claims ------------------------------------------------------------------------------

  /** The devices of one driver that some allocated claim holds. */
  ghost function HeldKeys(claims: seq<ResourceClaim>, driver: string): set<string> {
    set c, r | c in claims && c.allocation.Some? && r in c.allocation.value && r.driver == driver :: DeviceKey(r.pool, r.device)
  }

  function HolderName(c: ResourceClaim): string {
    c.namespace + "/" + c.name
  }

  /** The order in which claims arrive does not matter either. */
  lemma PermutingClaimsKeepsHeldKeys(a: seq<ResourceClaim>, c: seq<ResourceClaim>, driver: string)
    requires multiset(a) == multiset(c)
    ensures HeldKeys(a, driver) == HeldKeys(c, driver)
  {
    assert forall x :: x in a <==> x in multiset(a);
    assert forall x :: x in c <==> x in multiset(c);
  }

  /** Namespaces hold no slash, so a holder's name identifies the claim. */
  lemma HolderNameIdentifies(a: ResourceClaim, c: ResourceClaim)
    requires '/' !in a.namespace && '/' !in c.namespace && HolderName(a) == HolderName(c)
    ensures a.namespace == c.namespace && a.name == c.name
  {
    assert "/" == ['/'];
    Text.SplitAtFirst('/', a.namespace, a.name, c.namespace, c.name);
  }

  /** Device names are DNS labels, so the joined key identifies pool and device. */
  lemma DeviceKeyInjective(pool: string, device: string, pool': string, device': string)
    requires '/' !in device && '/' !in device'
    requires DeviceKey(pool, device) == DeviceKey(pool', device')
    ensures pool == pool' && device == device'
  {
    assert "/" == ['/'];
    Text.SplitAtLast('/', pool, device, pool', device');
  }
}
