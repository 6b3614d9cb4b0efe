/** Compiling resolved bounds against llmfit.ai attributes, the shipped device
    classes, and the same verdict stated on the device itself
    (internal/modelclaim/template.go, internal/modelclaim/satisfiable.go,
    deploy/deviceclass.yaml). */
module LlmfitFit {
  import opened Prelude
  import opened Resources
  import opened Cel

  // ---- The verdict ---------------------------------------------------------

  /** The device kind a shipped class pins; "" for any. */
  function KindForClass(deviceClass: string): string {
    if deviceClass == GPU_CLASS then "gpu"
    else if deviceClass == CPU_CLASS then "cpu"
    else if deviceClass == NPU_CLASS then "npu"
    else ""
  }

  predicate KindMatches(deviceClass: string, d: Device) {
    KindForClass(deviceClass) == "" || StrOf(d, "kind") == Some(KindForClass(deviceClass))
  }

  /** The classes that refuse vendor-managed devices. */
  predicate ExcludesVendorManaged(deviceClass: string) {
    deviceClass == BASE_CLASS || deviceClass == GPU_CLASS
  }

  /** Of the right kind but demoted: invisible to the count, surfaced in diagnostics. */
  predicate Excluded(deviceClass: string, d: Device) {
    KindMatches(deviceClass, d) && ExcludesVendorManaged(deviceClass) && BoolOf(d, "vendorManaged") == Some(true)
  }

  predicate Eligible(deviceClass: string, d: Device) {
    KindMatches(deviceClass, d) && !Excluded(deviceClass, d)
  }

  predicate MemOK(b: Bounds, d: Device) {
    "memory" in d.capacity && d.capacity["memory"] >= b.memoryGi * GIB
  }

  /** Waived for the CPU class, whose devices publish no bandwidth. */
  predicate BwOK(b: Bounds, deviceClass: string, d: Device) {
    deviceClass == CPU_CLASS ||
    (IntOf(d, "memoryBandwidthGBs").Some? && IntOf(d, "memoryBandwidthGBs").value >= b.minBandwidthGBs)
  }

  /** An explicit opt-in: never waived. */
  predicate ComputeOK(floor: nat, d: Device) {
    floor == 0 || (IntOf(d, "computeTFLOPS").Some? && IntOf(d, "computeTFLOPS").value >= floor)
  }

  predicate HealthyOK(d: Device) {
    BoolOf(d, "healthy") == Some(true)
  }

  predicate Fits(b: Bounds, deviceClass: string, floor: nat, d: Device) {
    MemOK(b, d) && BwOK(b, deviceClass, d) && ComputeOK(floor, d) && HealthyOK(d)
  }

  /** A device the advisory evaluation counts. */
  predicate Admits(b: Bounds, deviceClass: string, floor: nat, d: Device) {
    Eligible(deviceClass, d) && Fits(b, deviceClass, floor, d)
  }

  // ---- The compiler ----------------------------------------------------------

  function BandwidthTests(b: Bounds, deviceClass: string): seq<Expr> {
    if deviceClass == CPU_CLASS then []
    else [HasAttr(LLMFIT_DOMAIN, "memoryBandwidthGBs"),
          AttrAtLeast(LLMFIT_DOMAIN, "memoryBandwidthGBs", b.minBandwidthGBs)]
  }

  function ComputeTests(floor: nat): seq<Expr> {
    if floor > 0 then
      [HasAttr(LLMFIT_DOMAIN, "computeTFLOPS"), AttrAtLeast(LLMFIT_DOMAIN, "computeTFLOPS", floor)]
    else []
  }

  function FitTests(b: Bounds, deviceClass: string, floor: nat): seq<Expr> {
    [HasCap(LLMFIT_DOMAIN, "memory"), CapAtLeast(LLMFIT_DOMAIN, "memory", b.memoryGi * GIB)] +
    (BandwidthTests(b, deviceClass) +
     ([HasAttr(LLMFIT_DOMAIN, "healthy"), Attr(LLMFIT_DOMAIN, "healthy")] +
      ComputeTests(floor)))
  }

  /** Renders the guarded fit inequality. */
  function FitCEL(b: Bounds, deviceClass: string, floor: nat): Expr {
    AndAll(FitTests(b, deviceClass, floor))
  }

  function OwnDriver(): Expr {
    Eq(Driver, Const(Str(LLMFIT_DOMAIN)))
  }

  function KindIs(kind: string): Expr {
    AttrIs(LLMFIT_DOMAIN, "kind", kind)
  }

  function NotVendorManaged(): Expr {
    Not(HasAttr(LLMFIT_DOMAIN, "vendorManaged"))
  }

  /** The selectors of the shipped classes that carry compute. */
  function ClassTests(deviceClass: string): seq<Expr> {
    var healthy := Attr(LLMFIT_DOMAIN, "healthy");
    if deviceClass == BASE_CLASS then [OwnDriver(), NotVendorManaged(), healthy]
    else if deviceClass == GPU_CLASS then [OwnDriver(), KindIs("gpu"), NotVendorManaged(), healthy]
    else if deviceClass == NPU_CLASS then [OwnDriver(), KindIs("npu"), healthy]
    else if deviceClass == CPU_CLASS then [OwnDriver(), KindIs("cpu")]
    else [Const(Bool(true))]
  }

  function ClassCEL(deviceClass: string): Expr {
    AndAll(ClassTests(deviceClass))
  }

  predicate ShippedComputeClass(deviceClass: string) {
    deviceClass in {BASE_CLASS, GPU_CLASS, NPU_CLASS, CPU_CLASS}
  }

  // ---- Correctness ---------------------------------------------------------------

  /** The attributes the expressions compare carry the types the driver publishes. */
  predicate WellTyped(d: Device) {
    && ("memoryBandwidthGBs" in d.attributes ==> d.attributes["memoryBandwidthGBs"].IntAttr?)
    && ("computeTFLOPS" in d.attributes ==> d.attributes["computeTFLOPS"].IntAttr?)
    && ("healthy" in d.attributes ==> d.attributes["healthy"].BoolAttr?)
  }

  /** What the publisher promises of every device it emits. */
  predicate Published(d: Device) {
    && WellTyped(d)
    && StrOf(d, "kind").Some?
    && BoolOf(d, "healthy").Some?
    && ("vendorManaged" in d.attributes ==> d.attributes["vendorManaged"] == BoolAttr(true))
  }

  /** A guard and the test it protects, as one unit of a conjunction. */
  lemma GuardedPair(es: seq<Expr>, driver: string, d: Device)
    requires |es| == 2
    ensures (forall i :: 0 <= i < |es| ==> Holds(es[i], driver, d)) <==> Holds(es[0], driver, d) && Holds(es[1], driver, d)
    ensures (exists i :: 0 <= i < |es| && Fails(es[i], driver, d)) <==> Fails(es[0], driver, d) || Fails(es[1], driver, d)
  {
  }

  /** Concatenating units: all of them hold, or one member fails. */
  lemma JoinUnits(a: seq<Expr>, c: seq<Expr>, driver: string, d: Device)
    ensures (forall i :: 0 <= i < |a + c| ==> Holds((a + c)[i], driver, d)) <==>
            (forall i :: 0 <= i < |a| ==> Holds(a[i], driver, d)) && (forall i :: 0 <= i < |c| ==> Holds(c[i], driver, d))
    ensures (exists i :: 0 <= i < |a + c| && Fails((a + c)[i], driver, d)) <==>
            (exists i :: 0 <= i < |a| && Fails(a[i], driver, d)) || (exists i :: 0 <= i < |c| && Fails(c[i], driver, d))
  {
    var e := a + c;
    assert forall i :: 0 <= i < |a| ==> e[i] == a[i];
    assert forall i :: 0 <= i < |c| ==> e[|a| + i] == c[i];
  }

  lemma MemoryUnit(b: Bounds, d: Device)
    ensures var u := [HasCap(LLMFIT_DOMAIN, "memory"), CapAtLeast(LLMFIT_DOMAIN, "memory", b.memoryGi * GIB)];
            && (MemOK(b, d) <==> forall i :: 0 <= i < |u| ==> Holds(u[i], LLMFIT_DOMAIN, d))
            && (!MemOK(b, d) <==> exists i :: 0 <= i < |u| && Fails(u[i], LLMFIT_DOMAIN, d))
  {
    EvalHas(LLMFIT_DOMAIN, d, "memory");
    EvalCapAtLeast(LLMFIT_DOMAIN, d, "memory", b.memoryGi * GIB);
    GuardedPair([HasCap(LLMFIT_DOMAIN, "memory"), CapAtLeast(LLMFIT_DOMAIN, "memory", b.memoryGi * GIB)], LLMFIT_DOMAIN, d);
  }

  /** The attribute is missing, or a number below `n`. */
  predicate Below(d: Device, name: string, n: nat) {
    name !in d.attributes || (IntOf(d, name).Some? && IntOf(d, name).value < n)
  }

  lemma IntUnit(name: string, n: nat, d: Device)
    ensures var u := [HasAttr(LLMFIT_DOMAIN, name), AttrAtLeast(LLMFIT_DOMAIN, name, n)];
            && ((IntOf(d, name).Some? && IntOf(d, name).value >= n) <==> forall i :: 0 <= i < |u| ==> Holds(u[i], LLMFIT_DOMAIN, d))
            && (Below(d, name, n) <==> exists i :: 0 <= i < |u| && Fails(u[i], LLMFIT_DOMAIN, d))
  {
    EvalHas(LLMFIT_DOMAIN, d, name);
    EvalAttrTests(LLMFIT_DOMAIN, d, name, n, "", []);
    GuardedPair([HasAttr(LLMFIT_DOMAIN, name), AttrAtLeast(LLMFIT_DOMAIN, name, n)], LLMFIT_DOMAIN, d);
  }

  predicate Unhealthy(d: Device) {
    "healthy" !in d.attributes || BoolOf(d, "healthy") == Some(false)
  }

  lemma HealthyUnit(d: Device)
    ensures var u := [HasAttr(LLMFIT_DOMAIN, "healthy"), Attr(LLMFIT_DOMAIN, "healthy")];
            && (HealthyOK(d) <==> forall i :: 0 <= i < |u| ==> Holds(u[i], LLMFIT_DOMAIN, d))
            && (Unhealthy(d) <==> exists i :: 0 <= i < |u| && Fails(u[i], LLMFIT_DOMAIN, d))
  {
    EvalHas(LLMFIT_DOMAIN, d, "healthy");
    EvalAttr(LLMFIT_DOMAIN, d, "healthy");
    GuardedPair([HasAttr(LLMFIT_DOMAIN, "healthy"), Attr(LLMFIT_DOMAIN, "healthy")], LLMFIT_DOMAIN, d);
  }

  /** Some constraint is plainly missed. */
  predicate Refuted(b: Bounds, deviceClass: string, floor: nat, d: Device) {
    || !MemOK(b, d)
    || (deviceClass != CPU_CLASS && Below(d, "memoryBandwidthGBs", b.minBandwidthGBs))
    || Unhealthy(d)
    || (floor > 0 && Below(d, "computeTFLOPS", floor))
  }

  /** Some attribute that the expression reads carries another type than published. */
  predicate IllTyped(deviceClass: string, floor: nat, d: Device) {
    || (deviceClass != CPU_CLASS && "memoryBandwidthGBs" in d.attributes && IntOf(d, "memoryBandwidthGBs").None?)
    || ("healthy" in d.attributes && BoolOf(d, "healthy").None?)
    || (floor > 0 && "computeTFLOPS" in d.attributes && IntOf(d, "computeTFLOPS").None?)
  }

  /** The value of the expression on every device whatsoever. It is an error exactly
      when no constraint is plainly missed and some attribute it reads is ill-typed:
      guards protect against absence, not against types. */
  lemma FitCELValue(b: Bounds, deviceClass: string, floor: nat, d: Device)
    ensures Eval(FitCEL(b, deviceClass, floor), LLMFIT_DOMAIN, d) ==
            if Refuted(b, deviceClass, floor, d) then Bool(false)
            else if IllTyped(deviceClass, floor, d) then Error
            else Bool(true)
    ensures Fits(b, deviceClass, floor, d) <==> !Refuted(b, deviceClass, floor, d) && !IllTyped(deviceClass, floor, d)
  {
    hide Eval, AndAll;
    var mem := [HasCap(LLMFIT_DOMAIN, "memory"), CapAtLeast(LLMFIT_DOMAIN, "memory", b.memoryGi * GIB)];
    var bw, compute := BandwidthTests(b, deviceClass), ComputeTests(floor);
    var healthy := [HasAttr(LLMFIT_DOMAIN, "healthy"), Attr(LLMFIT_DOMAIN, "healthy")];
    MemoryUnit(b, d);
    IntUnit("memoryBandwidthGBs", b.minBandwidthGBs, d);
    HealthyUnit(d);
    IntUnit("computeTFLOPS", floor, d);
    JoinUnits(healthy, compute, LLMFIT_DOMAIN, d);
    JoinUnits(bw, healthy + compute, LLMFIT_DOMAIN, d);
    JoinUnits(mem, bw + (healthy + compute), LLMFIT_DOMAIN, d);
    EvalAndAll(FitTests(b, deviceClass, floor), LLMFIT_DOMAIN, d);
    ConjunctionIsLogical(FitTests(b, deviceClass, floor), LLMFIT_DOMAIN, d);
  }

  /** A proper conjunction is true, false or an error, nothing else. */
  lemma ConjunctionIsLogical(es: seq<Expr>, driver: string, d: Device)
    requires |es| > 1
    ensures Holds(AndAll(es), driver, d) || Fails(AndAll(es), driver, d) || Eval(AndAll(es), driver, d) == Error
  {
    assert Eval(AndAll(es), driver, d) == AndValue(Eval(AndAll(es[..|es| - 1]), driver, d), Eval(es[|es| - 1], driver, d));
  }

  /** Compiler correctness: on every device whatsoever the expression is true
      exactly when all four constraints are met, and on well-typed devices it is
      never an error, whatever they lack. */
  lemma FitCELCorrect(b: Bounds, deviceClass: string, floor: nat, d: Device)
    ensures Holds(FitCEL(b, deviceClass, floor), LLMFIT_DOMAIN, d) <==> Fits(b, deviceClass, floor, d)
    ensures WellTyped(d) ==>
            Eval(FitCEL(b, deviceClass, floor), LLMFIT_DOMAIN, d) == Bool(Fits(b, deviceClass, floor, d))
  {
    hide Eval, FitCEL;
    FitCELValue(b, deviceClass, floor, d);
  }

  /** Devices of any other driver are rejected by both selectors, without error. */
  lemma ForeignDriverNeverMatches(b: Bounds, deviceClass: string, floor: nat, driver: string, d: Device)
    requires driver != LLMFIT_DOMAIN
    ensures Fails(FitCEL(b, deviceClass, floor), driver, d)
    ensures ShippedComputeClass(deviceClass) ==> Fails(ClassCEL(deviceClass), driver, d)
  {
    hide AndAll;
    var fit, class_ := FitTests(b, deviceClass, floor), ClassTests(deviceClass);
    assert Eval(Capacity(LLMFIT_DOMAIN), driver, d) == Map(map[]);
    assert Eval(Const(Str("memory")), driver, d) == Str("memory");
    assert fit[0] == HasCap(LLMFIT_DOMAIN, "memory");
    assert Fails(fit[0], driver, d);
    EvalAndAll(fit, driver, d);
    assert Eval(Driver, driver, d) == Str(driver) && Eval(Const(Str(LLMFIT_DOMAIN)), driver, d) == Str(LLMFIT_DOMAIN);
    assert Fails(OwnDriver(), driver, d);
    assert ShippedComputeClass(deviceClass) ==> class_[0] == OwnDriver();
    EvalAndAll(class_, driver, d);
  }

  lemma ClassCELCorrect(deviceClass: string, d: Device)
    requires ShippedComputeClass(deviceClass) && Published(d)
    ensures Eval(ClassCEL(deviceClass), LLMFIT_DOMAIN, d) ==
            Bool(Eligible(deviceClass, d) && (deviceClass == CPU_CLASS || HealthyOK(d)))
  {
    hide Eval, AndAll;
    var n := LLMFIT_DOMAIN;
    EvalAttr(n, d, "healthy");
    EvalAttrTests(n, d, "kind", 0, KindForClass(deviceClass), []);
    EvalOwnDriver(d);
    var managed := "vendorManaged" in d.attributes;
    var kindOK := StrOf(d, "kind") == Some(KindForClass(deviceClass));
    var healthy := Attr(n, "healthy");
    if deviceClass == BASE_CLASS {
      var vs := [true, !managed, HealthyOK(d)];
      BoolConjunction([OwnDriver(), NotVendorManaged(), healthy], vs, n, d);
      assert All(vs) <==> vs[1] && vs[2];
    } else if deviceClass == GPU_CLASS {
      var vs := [true, kindOK, !managed, HealthyOK(d)];
      BoolConjunction([OwnDriver(), KindIs("gpu"), NotVendorManaged(), healthy], vs, n, d);
      assert All(vs) <==> vs[1] && vs[2] && vs[3];
    } else if deviceClass == NPU_CLASS {
      var vs := [true, kindOK, HealthyOK(d)];
      BoolConjunction([OwnDriver(), KindIs("npu"), healthy], vs, n, d);
      assert All(vs) <==> vs[1] && vs[2];
    } else {
      var vs := [true, kindOK];
      BoolConjunction([OwnDriver(), KindIs("cpu")], vs, n, d);
      assert All(vs) <==> vs[1];
    }
  }

  lemma EvalOwnDriver(d: Device)
    ensures Holds(OwnDriver(), LLMFIT_DOMAIN, d)
    ensures Eval(NotVendorManaged(), LLMFIT_DOMAIN, d) == Bool("vendorManaged" !in d.attributes)
  {
    EvalHas(LLMFIT_DOMAIN, d, "vendorManaged");
    assert Eval(Driver, LLMFIT_DOMAIN, d) == Str(LLMFIT_DOMAIN);
    assert Eval(Const(Str(LLMFIT_DOMAIN)), LLMFIT_DOMAIN, d) == Str(LLMFIT_DOMAIN);
  }

  predicate All(vs: seq<bool>) {
    forall i :: 0 <= i < |vs| ==> vs[i]
  }

  lemma {:induction false} BoolConjunction(es: seq<Expr>, vs: seq<bool>, driver: string, d: Device)
    requires es != [] && |vs| == |es|
    requires forall i :: 0 <= i < |es| ==> Eval(es[i], driver, d) == Bool(vs[i])
    ensures Eval(AndAll(es), driver, d) == Bool(All(vs))
  {
    EvalAndAll(es, driver, d);
    assert forall i :: 0 <= i < |es| ==> IsBool(es[i], driver, d);
    assert All(vs) <==> forall i :: 0 <= i < |es| ==> Holds(es[i], driver, d);
  }

  /** End to end: on every published device, for each shipped compute class, both
      selectors of the request evaluate without error, and together they select
      exactly the devices the evaluation counts. */
  lemma SelectorsMatchEvaluation(b: Bounds, deviceClass: string, floor: nat, d: Device)
    requires ShippedComputeClass(deviceClass) && Published(d)
    ensures Eval(And(ClassCEL(deviceClass), FitCEL(b, deviceClass, floor)), LLMFIT_DOMAIN, d)
            == Bool(Admits(b, deviceClass, floor, d))
    ensures IsBool(ClassCEL(deviceClass), LLMFIT_DOMAIN, d) && IsBool(FitCEL(b, deviceClass, floor), LLMFIT_DOMAIN, d)
  {
    ClassCELCorrect(deviceClass, d);
    FitCELCorrect(b, deviceClass, floor, d);
  }

  /** Under a custom class the evaluation mirrors the fit expression alone. */
  lemma CustomClassMatchesEvaluation(b: Bounds, deviceClass: string, floor: nat, d: Device)
    requires !ShippedComputeClass(deviceClass)
    ensures Holds(FitCEL(b, deviceClass, floor), LLMFIT_DOMAIN, d) <==> Admits(b, deviceClass, floor, d)
  {
    FitCELCorrect(b, deviceClass, floor, d);
  }

  /** The verdict in terms of what a device publishes: kind and demotion as the shipped
      classes ask, memory in bytes, bandwidth save for CPUs, the opt-in compute floor,
      and health. */
  lemma DeviceVerdict(b: Bounds, deviceClass: string, floor: nat, d: Device)
    ensures Admits(b, deviceClass, floor, d) <==>
            && (deviceClass == "gpu.llmfit.ai" ==> StrOf(d, "kind") == Some("gpu"))
            && (deviceClass == "npu.llmfit.ai" ==> StrOf(d, "kind") == Some("npu"))
            && (deviceClass == "cpu.llmfit.ai" ==> StrOf(d, "kind") == Some("cpu"))
            && (deviceClass == "llmfit.ai" || deviceClass == "gpu.llmfit.ai" ==> BoolOf(d, "vendorManaged") != Some(true))
            && "memory" in d.capacity && d.capacity["memory"] >= b.memoryGi * 1073741824
            && (deviceClass == "cpu.llmfit.ai" ||
                  (IntOf(d, "memoryBandwidthGBs").Some? && IntOf(d, "memoryBandwidthGBs").value >= b.minBandwidthGBs))
            && (floor == 0 || (IntOf(d, "computeTFLOPS").Some? && IntOf(d, "computeTFLOPS").value >= floor))
            && BoolOf(d, "healthy") == Some(true)
  {
  }

  /** Naming the CPU class waives bandwidth and nothing else. */
  lemma CpuClassWaivesOnlyBandwidth(b: Bounds, floor: nat, d: Device)
    ensures Fits(b, CPU_CLASS, floor, d) <==>
            exists bw: int :: Fits(b, GPU_CLASS, floor, d.(attributes := d.attributes["memoryBandwidthGBs" := IntAttr(bw)]))
  {
    var d' := d.(attributes := d.attributes["memoryBandwidthGBs" := IntAttr(b.minBandwidthGBs)]);
    assert Fits(b, CPU_CLASS, floor, d) ==> Fits(b, GPU_CLASS, floor, d');
  }
}
