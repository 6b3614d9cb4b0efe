/** Joining probe, index and llmfit into published devices
    (internal/publisher/publisher.go). */
module Publisher {
  import opened Prelude
  import opened Resources
  import opened Probe
  import opened Detector
  import Cel
  import LlmfitFit

  datatype Options = Options(taints: bool, vendorManagedGPUs: bool)

  /** One indexed accelerator model; 0 means unknown. */
  datatype Entry = Entry(model: string, memoryBandwidthGBs: int, computeTFLOPS: int, unifiedMemory: bool)

  type Index = map<string, Entry>

  function Lookup(idx: Index, vendor: string, device: string): Option<Entry> {
    var key := vendor + ":" + device;
    if key in idx then Some(idx[key]) else None
  }

  /** Kernel drivers whose GPUs the kubelet plugin can make usable. */
  const PREPARABLE: set<string> := {"amdgpu", "xe", "i915"}

  function VendorName(pciVendor: string): string {
    if pciVendor == "8086" then "intel"
    else if pciVendor == "10de" then "nvidia"
    else if pciVendor == "1002" || pciVendor == "1022" then "amd"
    else if pciVendor == "1da3" then "habana"
    else if pciVendor == "15b3" then "mellanox"
    else if pciVendor == "14e4" then "broadcom"
    else if pciVendor == "1414" then "microsoft"
    else if pciVendor == "15ad" then "vmware"
    else if pciVendor == "1af4" then "virtio"
    else "pci-" + pciVendor
  }

  lemma VendorNameNonEmpty(pciVendor: string)
    ensures VendorName(pciVendor) != ""
  {
  }

  // ---- Pairing llmfit entries with cards ------------------------------------------

  /** How many identical cards an entry stands for. */
  function Covered(g: LlmfitEntry): nat {
    if g.count == 0 then 1 else g.count
  }

  ghost predicate OnlyOfVendor(gpus: seq<LlmfitEntry>, vendor: string, i: nat) {
    i < |gpus| && gpus[i].vendor == vendor && forall k :: 0 <= k < |gpus| && gpus[k].vendor == vendor ==> k == i
  }

  /** Entry `i` may be attributed to a card of this vendor: it is the only entry of
      the vendor and covers every probed card of it, or there is exactly one GPU on
      both sides and the entry cannot be classified. */
  ghost predicate Attributable(gpus: seq<LlmfitEntry>, vendor: string, sameVendorProbed: nat, totalProbed: nat, i: nat) {
    || (OnlyOfVendor(gpus, vendor, i) && sameVendorProbed <= Covered(gpus[i]))
    || (i == 0 && |gpus| == 1 && totalProbed == 1 && gpus[0].vendor == "" && vendor != "")
  }

  /** Scans for the vendor's entry; ambiguity and under-reporting yield nothing. */
  method MatchLLMFitGPU(sys: Option<System>, d: ProbeDevice, vendor: string, sameVendorProbed: nat, totalProbed: nat)
    returns (r: Option<nat>)
    requires vendor != ""
    ensures r.Some? ==> sys.Some? && d.kind == GPU && Attributable(sys.value.gpus, vendor, sameVendorProbed, totalProbed, r.value)
    ensures r.None? && sys.Some? && d.kind == GPU ==>
              forall i: nat :: !Attributable(sys.value.gpus, vendor, sameVendorProbed, totalProbed, i)
  {
    if sys.None? || d.kind != GPU {
      return None;
    }
    var gpus := sys.value.gpus;
    var found: Option<nat> := None;
    for i := 0 to |gpus|
      invariant found.None? ==> forall k :: 0 <= k < i ==> gpus[k].vendor != vendor
      invariant found.Some? ==> found.value < i && gpus[found.value].vendor == vendor
      invariant found.Some? ==> forall k :: 0 <= k < i && gpus[k].vendor == vendor ==> k == found.value
    {
      if gpus[i].vendor == vendor {
        if found.Some? {
          return None; // two candidates
        }
        found := Some(i);
      }
    }
    if found.Some? {
      if sameVendorProbed > Covered(gpus[found.value]) {
        return None; // more cards than the entry covers
      }
      return found;
    }
    if |gpus| == 1 && totalProbed == 1 && gpus[0].vendor == "" {
      return Some(0);
    }
    return None;
  }

  ghost predicate IsGPUOf(devices: seq<ProbeDevice>, vendor: string, k: nat) {
    k < |devices| && devices[k].kind == GPU && VendorName(devices[k].pciVendor) == vendor
  }

  ghost function GPUsOf(devices: seq<ProbeDevice>, vendor: string): set<nat> {
    set k: nat | k < |devices| && IsGPUOf(devices, vendor, k)
  }

  ghost function AllGPUs(devices: seq<ProbeDevice>): set<nat> {
    set k: nat | k < |devices| && devices[k].kind == GPU
  }

  /** Over one call, llmfit entry `g` lends its capability to card `k`. */
  ghost predicate LendsTo(devices: seq<ProbeDevice>, gpus: seq<LlmfitEntry>, g: nat, k: nat) {
    && k < |devices| && devices[k].kind == GPU
    && var vendor := VendorName(devices[k].pciVendor);
       Attributable(gpus, vendor, |GPUsOf(devices, vendor)|, |AllGPUs(devices)|, g)
  }

  ghost function Borrowers(devices: seq<ProbeDevice>, gpus: seq<LlmfitEntry>, g: nat): set<nat> {
    set k: nat | k < |devices| && LendsTo(devices, gpus, g, k)
  }

  /** Pairing conservation: an entry serves at most the cards it counts, and a card
      takes from at most one entry. */
  lemma PairingConserves(devices: seq<ProbeDevice>, gpus: seq<LlmfitEntry>, g: nat)
    requires g < |gpus|
    ensures |Borrowers(devices, gpus, g)| <= Covered(gpus[g])
    ensures forall k, h: nat :: LendsTo(devices, gpus, g, k) && LendsTo(devices, gpus, h, k) ==> h == g
  {
    var taken := Borrowers(devices, gpus, g);
    if taken != {} {
      var k :| k in taken;
      var vendor := VendorName(devices[k].pciVendor);
      VendorNameNonEmpty(devices[k].pciVendor);
      if gpus[g].vendor == vendor {
        forall m | m in taken
          ensures m in GPUsOf(devices, vendor)
        {
          VendorNameNonEmpty(devices[m].pciVendor);
        }
        SubsetBoundsCardinality(taken, GPUsOf(devices, vendor));
      } else {
        assert taken <= AllGPUs(devices);
        SubsetBoundsCardinality(taken, AllGPUs(devices));
      }
    }
  }

  /** Exactly when a classifiable entry serves a card: same vendor, no second entry of
      that vendor, and no more probed cards of it than the entry counts (one at least). */
  lemma PairingExact(devices: seq<ProbeDevice>, gpus: seq<LlmfitEntry>, g: nat, k: nat)
    requires g < |gpus| && k < |devices| && gpus[g].vendor != ""
    ensures LendsTo(devices, gpus, g, k) <==>
            && devices[k].kind == GPU
            && gpus[g].vendor == VendorName(devices[k].pciVendor)
            && (forall h :: 0 <= h < |gpus| && h != g ==> gpus[h].vendor != gpus[g].vendor)
            && (|GPUsOf(devices, gpus[g].vendor)| <= 1 || |GPUsOf(devices, gpus[g].vendor)| <= gpus[g].count)
  {
    hide GPUsOf, AllGPUs, VendorName;
    SameVendorCounted(devices, gpus[g].vendor, k);
  }

  /** The card itself is among the probed cards of its vendor. */
  lemma SameVendorCounted(devices: seq<ProbeDevice>, vendor: string, k: nat)
    requires k < |devices|
    ensures devices[k].kind == GPU && VendorName(devices[k].pciVendor) == vendor ==> |GPUsOf(devices, vendor)| >= 1
  {
    if IsGPUOf(devices, vendor, k) {
      assert k in GPUsOf(devices, vendor);
    }
  }

  /** A classifiable entry never serves a card of another vendor; an unclassifiable
      one serves only when it is the one GPU on either side. */
  lemma PairingRespectsVendors(devices: seq<ProbeDevice>, gpus: seq<LlmfitEntry>, g: nat, k: nat)
    requires LendsTo(devices, gpus, g, k)
    ensures g < |gpus|
    ensures gpus[g].vendor != "" ==> gpus[g].vendor == VendorName(devices[k].pciVendor)
    ensures gpus[g].vendor == "" ==> |gpus| == 1 && |AllGPUs(devices)| == 1
  {
    VendorNameNonEmpty(devices[k].pciVendor);
  }

  // ---- What one published device says ----------------------------------------------

  function At(attrs: map<string, Attribute>, name: string): Option<Attribute> {
    if name in attrs then Some(attrs[name]) else None
  }

  /** Peak bandwidth: llmfit's when it has one, else the index's. */
  function BandwidthOf(lf: Option<LlmfitEntry>, entry: Option<Entry>): Option<int> {
    if lf.Some? && Priced(lf.value) then Some(lf.value.bandwidth.value.Floor)
    else if entry.Some? && entry.value.memoryBandwidthGBs > 0 then Some(entry.value.memoryBandwidthGBs)
    else None
  }

  function ComputeOf(entry: Option<Entry>): Option<int> {
    if entry.Some? && entry.value.computeTFLOPS > 0 then Some(entry.value.computeTFLOPS) else None
  }

  /** Whether memory is shared with the host; None when no source knows. */
  function UnifiedOf(d: ProbeDevice, lf: Option<LlmfitEntry>, entry: Option<Entry>): Option<bool> {
    if lf.Some? then Some(lf.value.unifiedMemory)
    else if entry.Some? then Some(entry.value.unifiedMemory)
    else if d.vramBytes > 0 then Some(false)
    else None
  }

  function BytesOfGB(gb: Option<real>): nat {
    if gb.Some? && gb.value > 0.0 then (gb.value * 1073741824.0).Floor else 0
  }

  /** Accelerator memory, 0 when unknown: llmfit's fit budget, else the larger of
      carve-out and shared pool on a known unified device, else probed VRAM. */
  function MemoryOf(d: ProbeDevice, lf: Option<LlmfitEntry>, entry: Option<Entry>, systemRAM: nat): nat {
    var budget := if lf.Some? then BytesOfGB(lf.value.vramGB) else 0;
    if budget > 0 then budget
    else if UnifiedOf(d, lf, entry) == Some(true) then (if d.vramBytes > systemRAM then d.vramBytes else systemRAM)
    else d.vramBytes
  }

  function IntAttribute(v: Option<int>): Option<Attribute> {
    if v.Some? then Some(IntAttr(v.value)) else None
  }

  function BoolAttribute(v: Option<bool>): Option<Attribute> {
    if v.Some? then Some(BoolAttr(v.value)) else None
  }

  /** GPUs that default-class claims must not reach. */
  predicate Demoted(d: ProbeDevice, opts: Options) {
    d.kind == GPU && (opts.vendorManagedGPUs || d.driver !in PREPARABLE)
  }

  datatype Facts = Facts(bandwidth: Option<int>, compute: Option<int>, unified: Option<bool>, source: string, memory: nat)

  ghost function CpuMemory(d: ProbeDevice, sys: Option<System>): nat {
    if sys.Some? && sys.value.totalRAMGB > 0.0 then BytesOfGB(Some(sys.value.totalRAMGB)) else d.systemRAMBytes
  }

  /** The capability facts of a probed device, given the entry paired with it. */
  ghost function FactsOf(d: ProbeDevice, lf: Option<LlmfitEntry>, idx: Index, systemRAM: nat, sys: Option<System>): Facts {
    match d.kind
    case NIC => Facts(None, None, None, "probe", 0)
    case CPU => Facts(None, None, Some(true), if sys.Some? then "llmfit" else "probe", CpuMemory(d, sys))
    case _ =>
      var entry := Lookup(idx, d.pciVendor, d.pciDevice);
      Facts(BandwidthOf(lf, entry), ComputeOf(entry), UnifiedOf(d, lf, entry),
            if lf.Some? then "llmfit" else if entry.Some? then "index" else "probe",
            MemoryOf(d, lf, entry, systemRAM))
  }

  /** The attributes the fit logic reads, plus provenance. */
  ghost predicate Carries(attrs: map<string, Attribute>, d: ProbeDevice, f: Facts, opts: Options) {
    && At(attrs, "kind") == Some(StrAttr(KindName(d.kind)))
    && At(attrs, "healthy") == Some(BoolAttr(Healthy(d).0))
    && At(attrs, "memoryBandwidthGBs") == IntAttribute(f.bandwidth)
    && At(attrs, "computeTFLOPS") == IntAttribute(f.compute)
    && At(attrs, "unifiedMemory") == BoolAttribute(f.unified)
    && At(attrs, "source") == Some(StrAttr(f.source))
    && At(attrs, "vendorManaged") == (if Demoted(d, opts) then Some(BoolAttr(true)) else None)
  }

  ghost predicate Describes(dev: Device, d: ProbeDevice, f: Facts, opts: Options) {
    && dev.name == Name(d)
    && Carries(dev.attributes, d, f, opts)
    && dev.capacity == (if f.memory > 0 then map["memory" := f.memory] else map[])
    && dev.taint == (if opts.taints && !Healthy(d).0 then Some(Healthy(d).1) else None)
    && dev.standard == (if d.kind != CPU && d.pcieRoot != "" then map["pcieRoot" := StrAttr(d.pcieRoot)] else map[])
  }

  // ---- Consequences for claims ---------------------------------------------------------

  /** Everything published satisfies what the selectors take for granted. */
  lemma DescribedIsPublished(dev: Device, d: ProbeDevice, f: Facts, opts: Options)
    requires Describes(dev, d, f, opts)
    ensures LlmfitFit.Published(dev)
  {
  }

  /** What memory an accelerator may claim to have. The paired entry's budget comes
      first; failing that, a device some source knows to be unified has the larger of
      carve-out and shared pool; and a device no source calls unified has exactly its
      probed memory, so nothing at all when none was probed: system memory is never
      passed off as a card's own. */
  predicate HonestMemory(dev: Device, d: ProbeDevice, lf: Option<LlmfitEntry>, idx: Index, systemRAM: nat) {
    var key := d.pciVendor + ":" + d.pciDevice;
    var unified := if lf.Some? then lf.value.unifiedMemory else key in idx && idx[key].unifiedMemory;
    var budget := lf.Some? && lf.value.vramGB.Some? && lf.value.vramGB.value * 1073741824.0 >= 1.0;
    && (budget ==> dev.capacity == map["memory" := (lf.value.vramGB.value * 1073741824.0).Floor])
    && (!budget && unified ==>
          dev.capacity == (if d.vramBytes == 0 && systemRAM == 0 then map[]
                           else map["memory" := if d.vramBytes >= systemRAM then d.vramBytes else systemRAM]))
    && (!budget && !unified ==>
          ("memory" in dev.capacity <==> d.vramBytes > 0) && ("memory" in dev.capacity ==> dev.capacity["memory"] == d.vramBytes))
  }

  /** What speed it may claim: the paired entry's bandwidth when positive, else the
      index's, else none; compute from the index alone. */
  predicate HonestSpeed(dev: Device, d: ProbeDevice, lf: Option<LlmfitEntry>, idx: Index) {
    var key := d.pciVendor + ":" + d.pciDevice;
    var priced := lf.Some? && lf.value.bandwidth.Some? && lf.value.bandwidth.value > 0.0;
    var indexed := key in idx && idx[key].memoryBandwidthGBs > 0;
    && (priced ==> IntOf(dev, "memoryBandwidthGBs") == Some(lf.value.bandwidth.value.Floor))
    && (!priced && indexed ==> IntOf(dev, "memoryBandwidthGBs") == Some(idx[key].memoryBandwidthGBs))
    && (!priced && !indexed ==> "memoryBandwidthGBs" !in dev.attributes)
    && (key in idx && idx[key].computeTFLOPS > 0 ==> IntOf(dev, "computeTFLOPS") == Some(idx[key].computeTFLOPS))
    && (!(key in idx && idx[key].computeTFLOPS > 0) ==> "computeTFLOPS" !in dev.attributes)
  }

  /** Where its numbers come from, and whether its memory is shared, told only when some
      source knows or dedicated memory was measured. */
  predicate HonestProvenance(dev: Device, d: ProbeDevice, lf: Option<LlmfitEntry>, idx: Index) {
    var key := d.pciVendor + ":" + d.pciDevice;
    if lf.Some? then
      StrOf(dev, "source") == Some("llmfit") && BoolOf(dev, "unifiedMemory") == Some(lf.value.unifiedMemory)
    else if key in idx then
      StrOf(dev, "source") == Some("index") && BoolOf(dev, "unifiedMemory") == Some(idx[key].unifiedMemory)
    else
      && StrOf(dev, "source") == Some("probe")
      && (d.vramBytes > 0 ==> BoolOf(dev, "unifiedMemory") == Some(false))
      && (d.vramBytes == 0 ==> "unifiedMemory" !in dev.attributes)
  }

  lemma AcceleratorMemory(dev: Device, d: ProbeDevice, lf: Option<LlmfitEntry>, opts: Options, idx: Index,
                          systemRAM: nat, sys: Option<System>)
    requires d.kind == GPU || d.kind == NPU
    requires Describes(dev, d, FactsOf(d, lf, idx, systemRAM, sys), opts)
    ensures HonestMemory(dev, d, lf, idx, systemRAM)
  {
  }

  lemma AcceleratorSpeed(dev: Device, d: ProbeDevice, lf: Option<LlmfitEntry>, opts: Options, idx: Index,
                         systemRAM: nat, sys: Option<System>)
    requires d.kind == GPU || d.kind == NPU
    requires Describes(dev, d, FactsOf(d, lf, idx, systemRAM, sys), opts)
    ensures HonestSpeed(dev, d, lf, idx) && HonestProvenance(dev, d, lf, idx)
  {
    assert At(dev.attributes, "unifiedMemory").None? <==> "unifiedMemory" !in dev.attributes;
    assert At(dev.attributes, "memoryBandwidthGBs").None? <==> "memoryBandwidthGBs" !in dev.attributes;
    assert At(dev.attributes, "computeTFLOPS").None? <==> "computeTFLOPS" !in dev.attributes;
  }

  /** The CPU carries llmfit's memory when it reports some, else the probed amount, and
      no speed; a NIC carries neither memory nor speed. */
  lemma HostDevices(dev: Device, d: ProbeDevice, lf: Option<LlmfitEntry>, opts: Options, idx: Index,
                    systemRAM: nat, sys: Option<System>)
    requires d.kind == CPU || d.kind == NIC
    requires Describes(dev, d, FactsOf(d, lf, idx, systemRAM, sys), opts)
    ensures "memoryBandwidthGBs" !in dev.attributes && "computeTFLOPS" !in dev.attributes
    ensures d.kind == NIC ==> dev.capacity == map[] && StrOf(dev, "source") == Some("probe") && "unifiedMemory" !in dev.attributes
    ensures d.kind == CPU ==>
              BoolOf(dev, "unifiedMemory") == Some(true) && StrOf(dev, "source") == Some(if sys.Some? then "llmfit" else "probe")
    ensures var bytes := if sys.Some? && sys.value.totalRAMGB > 0.0 then (sys.value.totalRAMGB * 1073741824.0).Floor
                         else d.systemRAMBytes;
            d.kind == CPU ==> dev.capacity == (if bytes > 0 then map["memory" := bytes] else map[])
  {
    assert At(dev.attributes, "memoryBandwidthGBs").None? && At(dev.attributes, "computeTFLOPS").None?;
    assert At(dev.attributes, "unifiedMemory").None? <==> "unifiedMemory" !in dev.attributes;
  }

  /** Kind, health, taint and demotion of every published device, whatever its facts:
      a CPU is always healthy; anything else needs a bound driver and no uncorrectable
      errors, and a NIC an active port and a device node besides. */
  lemma IdentityAndHealth(dev: Device, d: ProbeDevice, f: Facts, opts: Options)
    requires Describes(dev, d, f, opts)
    ensures StrOf(dev, "kind") == Some(match d.kind case GPU => "gpu" case NPU => "npu" case CPU => "cpu" case NIC => "nic")
    ensures var healthy := d.kind == CPU ||
                           (d.driver != "" && d.rasUncorrectable == 0 && (d.kind == NIC ==> d.ibPortActive && d.devNode != ""));
            && BoolOf(dev, "healthy") == Some(healthy)
            && (dev.taint.Some? <==> opts.taints && !healthy)
            && (dev.taint.Some? ==>
                  var reason := if d.driver == "" then "driverUnbound"
                                else if d.rasUncorrectable > 0 then "uncorrectableEcc"
                                else if !d.ibPortActive then "portDown"
                                else "noUverbsNode";
                  dev.taint.value == reason)
    ensures "vendorManaged" in dev.attributes <==>
            d.kind == GPU && (opts.vendorManagedGPUs || !(d.driver == "amdgpu" || d.driver == "xe" || d.driver == "i915"))
  {
    assert At(dev.attributes, "vendorManaged").None? <==> "vendorManaged" !in dev.attributes;
  }

  /** The vendor a PCI id stands for: which ids belong to each known vendor, and that
      any other id names no known vendor. */
  lemma VendorOfId(id: string)
    ensures VendorName(id) == "amd" <==> id == "1002" || id == "1022"
    ensures VendorName(id) == "nvidia" <==> id == "10de"
    ensures VendorName(id) == "intel" <==> id == "8086"
    ensures VendorName(id) == "habana" <==> id == "1da3"
    ensures VendorName(id) == "mellanox" <==> id == "15b3"
    ensures VendorName(id) == "broadcom" <==> id == "14e4"
    ensures VendorName(id) == "microsoft" <==> id == "1414"
    ensures VendorName(id) == "vmware" <==> id == "15ad"
    ensures VendorName(id) == "virtio" <==> id == "1af4"
    ensures VendorName(id) in {"amd", "nvidia", "intel", "habana", "mellanox", "broadcom", "microsoft", "vmware", "virtio"}
            || VendorName(id) == "pci-" + id
  {
    assert "pci-"[0] == 'p' && "pci-"[1] == 'c';
    var name := "pci-" + id;
    assert name[0] == 'p' && name[1] == 'c';
  }

  /** A card that neither its paired entry nor the index prices publishes no bandwidth,
      so no class admits it, whatever the floors; the one class that waives bandwidth
      is not for its kind. */
  lemma UnpricedCardNeverFits(dev: Device, d: ProbeDevice, lf: Option<LlmfitEntry>, opts: Options, idx: Index,
                              systemRAM: nat, sys: Option<System>, b: Bounds, deviceClass: string, floor: nat)
    requires d.kind == GPU || d.kind == NPU
    requires lf.None? || !Priced(lf.value)
    requires var entry := Lookup(idx, d.pciVendor, d.pciDevice); entry.None? || entry.value.memoryBandwidthGBs <= 0
    requires Describes(dev, d, FactsOf(d, lf, idx, systemRAM, sys), opts)
    ensures !LlmfitFit.Admits(b, deviceClass, floor, dev)
  {
  }

  // ---- Building the list ------------------------------------------------------------------

  type Attributes = map<string, Attribute>

  /** Identity, health and demotion agree. */
  ghost predicate SameIdentity(a: Attributes, c: Attributes) {
    && At(a, "kind") == At(c, "kind")
    && At(a, "healthy") == At(c, "healthy")
    && At(a, "vendorManaged") == At(c, "vendorManaged")
    && At(a, "unifiedMemory") == At(c, "unifiedMemory")
  }

  ghost predicate SameCapability(a: Attributes, c: Attributes) {
    && At(a, "memoryBandwidthGBs") == At(c, "memoryBandwidthGBs")
    && At(a, "computeTFLOPS") == At(c, "computeTFLOPS")
    && At(a, "source") == At(c, "source")
  }

  /** Identity and health, common to every kind. */
  method CommonAttributes(d: ProbeDevice) returns (attrs: Attributes)
    ensures At(attrs, "kind") == Some(StrAttr(KindName(d.kind)))
    ensures At(attrs, "healthy") == Some(BoolAttr(Healthy(d).0))
    ensures At(attrs, "vendorManaged") == At(attrs, "unifiedMemory") == At(attrs, "memoryBandwidthGBs") == At(attrs, "computeTFLOPS") == None
  {
    var (healthy, reason) := Healthy(d);
    attrs := map["kind" := StrAttr(KindName(d.kind)), "healthy" := BoolAttr(healthy)];
    if reason != "" {
      attrs := attrs["healthReason" := StrAttr(reason)];
    }
  }

  /** Adds the location of a PCI device, where known; the root complex also goes
      under its standardised cross-driver spelling. */
  method AddLocation(before: Attributes, d: ProbeDevice) returns (attrs: Attributes, standard: Attributes)
    ensures SameIdentity(attrs, before) && SameCapability(attrs, before)
    ensures standard == if d.pcieRoot != "" then map["pcieRoot" := StrAttr(d.pcieRoot)] else map[]
    ensures d.driver != "" ==> At(attrs, "driver") == Some(StrAttr(d.driver))
  {
    attrs, standard := before, map[];
    if d.pciAddr != "" {
      attrs := attrs["pciAddress" := StrAttr(d.pciAddr)];
    }
    if d.pcieRoot != "" {
      attrs := attrs["pcieRoot" := StrAttr(d.pcieRoot)];
      standard := standard["pcieRoot" := StrAttr(d.pcieRoot)];
    }
    if d.driver != "" {
      attrs := attrs["driver" := StrAttr(d.driver)];
    }
  }

  method NicAttributes(d: ProbeDevice, ghost opts: Options) returns (attrs: Attributes, standard: Attributes)
    requires d.kind == NIC
    ensures Carries(attrs, d, Facts(None, None, None, "probe", 0), opts)
    ensures standard == if d.pcieRoot != "" then map["pcieRoot" := StrAttr(d.pcieRoot)] else map[]
  {
    attrs := CommonAttributes(d);
    attrs := attrs["vendor" := StrAttr(VendorName(d.pciVendor))];
    attrs := attrs["source" := StrAttr("probe")];
    attrs, standard := AddLocation(attrs, d);
    if d.ibLinkLayer != "" {
      attrs := attrs["linkLayer" := StrAttr(d.ibLinkLayer)];
    }
    if d.ibRateGbps > 0 {
      attrs := attrs["rateGbps" := IntAttr(d.ibRateGbps)];
    }
    if d.netDev != "" {
      attrs := attrs["netdev" := StrAttr(d.netDev)];
    }
  }

  method CpuAttributes(d: ProbeDevice, sys: Option<System>, ghost opts: Options) returns (attrs: Attributes, memBytes: nat)
    requires d.kind == CPU
    ensures Carries(attrs, d, Facts(None, None, Some(true), if sys.Some? then "llmfit" else "probe", memBytes), opts)
    ensures memBytes == CpuMemory(d, sys)
  {
    attrs := CommonAttributes(d);
    attrs := attrs["vendor" := StrAttr("cpu")];
    attrs := attrs["unifiedMemory" := BoolAttr(true)];
    var model := d.cpuModel;
    memBytes := d.systemRAMBytes;
    if sys.Some? {
      attrs := attrs["source" := StrAttr("llmfit")];
      if sys.value.cpuName != "" {
        model := sys.value.cpuName;
      }
      if sys.value.totalRAMGB > 0.0 {
        memBytes := BytesOfGB(Some(sys.value.totalRAMGB));
      }
    } else {
      attrs := attrs["source" := StrAttr("probe")];
    }
    if model != "" {
      attrs := attrs["model" := StrAttr(model)];
    }
  }

  /** Bandwidth, compute and provenance from the best source that knows. */
  method AddCapability(before: Attributes, d: ProbeDevice, lf: Option<LlmfitEntry>, entry: Option<Entry>)
    returns (attrs: Attributes, unified: Option<bool>, memBytes: nat)
    requires At(before, "memoryBandwidthGBs") == At(before, "computeTFLOPS") == None
    ensures At(attrs, "memoryBandwidthGBs") == IntAttribute(BandwidthOf(lf, entry))
    ensures At(attrs, "computeTFLOPS") == IntAttribute(ComputeOf(entry))
    ensures At(attrs, "source") == Some(StrAttr(if lf.Some? then "llmfit" else if entry.Some? then "index" else "probe"))
    ensures SameIdentity(attrs, before)
    ensures unified == UnifiedOf(d, lf, entry)
    ensures memBytes == if lf.Some? then BytesOfGB(lf.value.vramGB) else 0
  {
    attrs := before["indexed" := BoolAttr(entry.Some?)];
    unified, memBytes := None, 0;
    if lf.Some? {
      attrs := attrs["source" := StrAttr("llmfit")];
      attrs := attrs["model" := StrAttr(lf.value.name)];
      if lf.value.backend != "" {
        attrs := attrs["backend" := StrAttr(lf.value.backend)];
      }
      if lf.value.bandwidth.Some? && lf.value.bandwidth.value > 0.0 {
        attrs := attrs["memoryBandwidthGBs" := IntAttr(lf.value.bandwidth.value.Floor)];
      } else if entry.Some? && entry.value.memoryBandwidthGBs > 0 {
        attrs := attrs["memoryBandwidthGBs" := IntAttr(entry.value.memoryBandwidthGBs)];
      }
      if entry.Some? && entry.value.computeTFLOPS > 0 {
        attrs := attrs["computeTFLOPS" := IntAttr(entry.value.computeTFLOPS)];
      }
      unified := Some(lf.value.unifiedMemory);
      if lf.value.vramGB.Some? && lf.value.vramGB.value > 0.0 {
        memBytes := BytesOfGB(lf.value.vramGB);
      }
    } else if entry.Some? {
      attrs := attrs["source" := StrAttr("index")];
      attrs := attrs["model" := StrAttr(entry.value.model)];
      if entry.value.memoryBandwidthGBs > 0 {
        attrs := attrs["memoryBandwidthGBs" := IntAttr(entry.value.memoryBandwidthGBs)];
      }
      if entry.value.computeTFLOPS > 0 {
        attrs := attrs["computeTFLOPS" := IntAttr(entry.value.computeTFLOPS)];
      }
      unified := Some(entry.value.unifiedMemory);
    } else {
      attrs := attrs["source" := StrAttr("probe")];
      attrs := attrs["model" := StrAttr("pci-" + d.pciVendor + "-" + d.pciDevice)];
      if d.vramBytes > 0 {
        unified := Some(false);
      }
    }
  }

  method AcceleratorAttributes(d: ProbeDevice, lf: Option<LlmfitEntry>, idx: Index, systemRAM: nat, opts: Options,
                               ghost sys: Option<System>)
    returns (attrs: Attributes, standard: Attributes, memBytes: nat)
    requires d.kind in {DeviceKind.GPU, NPU}
    ensures Carries(attrs, d, FactsOf(d, lf, idx, systemRAM, sys), opts)
    ensures memBytes == FactsOf(d, lf, idx, systemRAM, sys).memory
    ensures standard == if d.pcieRoot != "" then map["pcieRoot" := StrAttr(d.pcieRoot)] else map[]
  {
    hide BandwidthOf, ComputeOf, UnifiedOf, BytesOfGB, Healthy, VendorName, KindName, Lookup;
    attrs := CommonAttributes(d);
    attrs := attrs["vendor" := StrAttr(VendorName(d.pciVendor))];
    attrs, standard := AddLocation(attrs, d);
    var unified;
    attrs, unified, memBytes := AddCapability(attrs, d, lf, Lookup(idx, d.pciVendor, d.pciDevice));
    attrs := AddStatus(attrs, unified, d.kind == GPU && (opts.vendorManagedGPUs || d.driver !in PREPARABLE));
    if memBytes == 0 {
      if unified == Some(true) {
        memBytes := if d.vramBytes > systemRAM then d.vramBytes else systemRAM;
      } else if d.vramBytes > 0 {
        memBytes := d.vramBytes;
      }
    }
  }

  /** Whether memory is shared, where known, and the demotion mark. */
  method AddStatus(before: Attributes, unified: Option<bool>, demoted: bool) returns (attrs: Attributes)
    requires At(before, "unifiedMemory") == At(before, "vendorManaged") == None
    ensures At(attrs, "kind") == At(before, "kind") && At(attrs, "healthy") == At(before, "healthy")
    ensures SameCapability(attrs, before)
    ensures At(attrs, "unifiedMemory") == BoolAttribute(unified)
    ensures At(attrs, "vendorManaged") == if demoted then Some(BoolAttr(true)) else None
  {
    attrs := before;
    if unified.Some? {
      attrs := attrs["unifiedMemory" := BoolAttr(unified.value)];
    }
    if demoted {
      attrs := attrs["vendorManaged" := BoolAttr(true)];
    }
  }

  /** Counts the probed GPUs, in all and per vendor. */
  method CountGPUs(devices: seq<ProbeDevice>) returns (total: nat, byVendor: map<string, nat>)
    ensures total == |AllGPUs(devices)|
    ensures forall vendor :: GetOr(byVendor, vendor, 0) == |GPUsOf(devices, vendor)|
  {
    total, byVendor := 0, map[];
    for n := 0 to |devices|
      invariant CountedTo(devices, n, total, byVendor)
    {
      var d := devices[n];
      CountOne(devices, n, total, byVendor);
      if d.kind == GPU {
        total := total + 1;
        var vendor := VendorName(d.pciVendor);
        byVendor := byVendor[vendor := GetOr(byVendor, vendor, 0) + 1];
      }
    }
    assert devices[..|devices|] == devices;
  }

  ghost predicate CountedTo(devices: seq<ProbeDevice>, n: nat, total: nat, byVendor: map<string, nat>)
    requires n <= |devices|
  {
    total == |AllGPUs(devices[..n])| && forall vendor :: GetOr(byVendor, vendor, 0) == |GPUsOf(devices[..n], vendor)|
  }

  lemma CountOne(devices: seq<ProbeDevice>, n: nat, total: nat, byVendor: map<string, nat>)
    requires n < |devices| && CountedTo(devices, n, total, byVendor)
    ensures devices[n].kind == GPU ==>
      var vendor := VendorName(devices[n].pciVendor);
      CountedTo(devices, n + 1, total + 1, byVendor[vendor := GetOr(byVendor, vendor, 0) + 1])
    ensures devices[n].kind != GPU ==> CountedTo(devices, n + 1, total, byVendor)
  {
    hide GPUsOf, AllGPUs, VendorName;
    var mine := VendorName(devices[n].pciVendor);
    AllGPUsOneMore(devices, n);
    var next := n + 1;
    forall vendor
      ensures |GPUsOf(devices[..next], vendor)| ==
              |GPUsOf(devices[..n], vendor)| + (if devices[n].kind == GPU && vendor == mine then 1 else 0)
    {
      GPUsOneMore(devices, n, vendor);
    }
  }

  lemma AllGPUsOneMore(devices: seq<ProbeDevice>, n: nat)
    requires n < |devices|
    ensures |AllGPUs(devices[..n + 1])| == |AllGPUs(devices[..n])| + (if devices[n].kind == GPU then 1 else 0)
  {
    assert AllGPUs(devices[..n + 1]) == AllGPUs(devices[..n]) + (if devices[n].kind == GPU then {n} else {});
  }

  lemma GPUsOneMore(devices: seq<ProbeDevice>, n: nat, vendor: string)
    requires n < |devices|
    ensures |GPUsOf(devices[..n + 1], vendor)| ==
            |GPUsOf(devices[..n], vendor)| + (if devices[n].kind == GPU && vendor == VendorName(devices[n].pciVendor) then 1 else 0)
  {
    hide VendorName;
    assert GPUsOf(devices[..n + 1], vendor) == GPUsOf(devices[..n], vendor) + (if IsGPUOf(devices, vendor, n) then {n} else {});
  }

  /** The paired entry of a probed device within one call. */
  ghost predicate IsPaired(devices: seq<ProbeDevice>, sys: Option<System>, k: nat, lf: Option<LlmfitEntry>)
    requires k < |devices|
  {
    if lf.Some? then
      sys.Some? && exists g: nat :: g < |sys.value.gpus| && LendsTo(devices, sys.value.gpus, g, k) && lf.value == sys.value.gpus[g]
    else
      sys.None? || forall g: nat :: !LendsTo(devices, sys.value.gpus, g, k)
  }

  /** `dev` is what device `k` publishes. */
  ghost predicate IsEntryFor(devices: seq<ProbeDevice>, idx: Index, systemRAM: nat, sys: Option<System>, opts: Options,
                             k: nat, dev: Device)
  {
    k < |devices| && exists lf: Option<LlmfitEntry> ::
      IsPaired(devices, sys, k, lf) && Describes(dev, devices[k], FactsOf(devices[k], lf, idx, systemRAM, sys), opts)
  }

  /** The first device that carries its name. */
  ghost predicate FirstOfName(devices: seq<ProbeDevice>, k: nat) {
    k < |devices| && forall m :: 0 <= m < k ==> Name(devices[m]) != Name(devices[k])
  }

  ghost function ProbedNames(devices: seq<ProbeDevice>): set<string> {
    set d | d in devices :: Name(d)
  }

  function PublishedNames(out: seq<Device>): set<string> {
    set d | d in out :: d.name
  }

  lemma NoNamesYet()
    ensures PublishedNames([]) == {}
  {
  }

  lemma UnusedName(out: seq<Device>, name: string)
    requires name !in PublishedNames(out)
    ensures forall i :: 0 <= i < |out| ==> out[i].name != name
  {
    assert forall i :: 0 <= i < |out| ==> out[i] in out;
  }

  lemma PublishedNamesOneMore(out: seq<Device>, dev: Device)
    ensures PublishedNames(out + [dev]) == PublishedNames(out) + {dev.name}
  {
    assert dev in out + [dev];
    assert forall d :: d in out ==> d in out + [dev];
  }

  lemma NamesCovered(devices: seq<ProbeDevice>, out: seq<Device>, from: seq<nat>)
    requires |from| == |out|
    requires forall i :: 0 <= i < |out| ==> from[i] < |devices| && out[i].name == Name(devices[from[i]])
    requires forall m :: 0 <= m < |devices| ==> Name(devices[m]) in PublishedNames(out)
    ensures PublishedNames(out) == ProbedNames(devices)
  {
    forall n | n in PublishedNames(out)
      ensures n in ProbedNames(devices)
    {
      var d :| d in out && d.name == n;
      var i :| 0 <= i < |out| && out[i] == d;
      assert devices[from[i]] in devices;
    }
  }

  method PublishOne(devices: seq<ProbeDevice>, idx: Index, systemRAM: nat, sys: Option<System>, opts: Options,
                    k: nat, total: nat, byVendor: map<string, nat>)
    returns (dev: Device)
    requires k < |devices| && total == |AllGPUs(devices)|
    requires forall vendor :: GetOr(byVendor, vendor, 0) == |GPUsOf(devices, vendor)|
    ensures IsEntryFor(devices, idx, systemRAM, sys, opts, k, dev)
  {
    hide Carries;
    var d := devices[k];
    var attrs: Attributes, standard: Attributes, memBytes := map[], map[], 0;
    var lf: Option<LlmfitEntry> := None;
    if d.kind == NIC {
      attrs, standard := NicAttributes(d, opts);
    } else if d.kind == CPU {
      attrs, memBytes := CpuAttributes(d, sys, opts);
    } else {
      var vendor := VendorName(d.pciVendor);
      VendorNameNonEmpty(d.pciVendor);
      var i := MatchLLMFitGPU(sys, d, vendor, GetOr(byVendor, vendor, 0), total);
      if i.Some? {
        lf := Some(sys.value.gpus[i.value]);
        assert LendsTo(devices, sys.value.gpus, i.value, k);
      }
      attrs, standard, memBytes := AcceleratorAttributes(d, lf, idx, systemRAM, opts, sys);
    }
    assert IsPaired(devices, sys, k, lf);
    var (healthy, reason) := Healthy(d);
    dev := Device(Name(d), attrs, standard,
                  if memBytes > 0 then map["memory" := memBytes] else map[],
                  if opts.taints && !healthy then Some(reason) else None);
    assert Describes(dev, d, FactsOf(d, lf, idx, systemRAM, sys), opts);
  }

  /** Maps probed devices into DRA device entries: `from` tells which device each
      entry came from. Names are unique, the first device of each name is kept, in
      probe order, and every probed name is published. */
  method BuildDevices(devices: seq<ProbeDevice>, idx: Index, systemRAM: nat, sys: Option<System>, opts: Options)
    returns (out: seq<Device>, ghost from: seq<nat>)
    ensures |from| == |out|
    ensures forall i :: 0 <= i < |out| ==> FirstOfName(devices, from[i]) && IsEntryFor(devices, idx, systemRAM, sys, opts, from[i], out[i])
    ensures forall i, j :: 0 <= i < j < |out| ==> from[i] < from[j] && out[i].name != out[j].name
    ensures PublishedNames(out) == ProbedNames(devices)
    ensures forall i :: 0 <= i < |out| ==> LlmfitFit.Published(out[i])
  {
    hide IsEntryFor, LlmfitFit.Published, Name, PublishedNames;
    var total, byVendor := CountGPUs(devices);
    out, from := [], [];
    var names: set<string> := {};
    NoNamesYet();
    for k := 0 to |devices|
      invariant |from| == |out|
      invariant forall i :: 0 <= i < |out| ==> from[i] < k && FirstOfName(devices, from[i])
      invariant forall i :: 0 <= i < |out| ==> IsEntryFor(devices, idx, systemRAM, sys, opts, from[i], out[i])
      invariant forall i :: 0 <= i < |out| ==> out[i].name == Name(devices[from[i]])
      invariant forall m :: 0 <= m < k ==> Name(devices[m]) in names
      invariant forall i, j :: 0 <= i < j < |out| ==> from[i] < from[j] && out[i].name != out[j].name
      invariant names == PublishedNames(out)
    {
      var dev := PublishOne(devices, idx, systemRAM, sys, opts, k, total, byVendor);
      EntryFacts(devices, idx, systemRAM, sys, opts, k, dev);
      var name := Name(devices[k]);
      if name in names {
        continue;
      }
      UnusedName(out, name);
      PublishedNamesOneMore(out, dev);
      names := names + {name};
      out, from := out + [dev], from + [k];
    }
    NamesCovered(devices, out, from);
    forall i | 0 <= i < |out|
      ensures LlmfitFit.Published(out[i])
    {
      EntryFacts(devices, idx, systemRAM, sys, opts, from[i], out[i]);
    }
  }

  lemma EntryFacts(devices: seq<ProbeDevice>, idx: Index, systemRAM: nat, sys: Option<System>, opts: Options, k: nat, dev: Device)
    requires IsEntryFor(devices, idx, systemRAM, sys, opts, k, dev)
    ensures dev.name == Name(devices[k]) && LlmfitFit.Published(dev)
  {
    var lf: Option<LlmfitEntry> :| IsPaired(devices, sys, k, lf)
      && Describes(dev, devices[k], FactsOf(devices[k], lf, idx, systemRAM, sys), opts);
    DescribedIsPublished(dev, devices[k], FactsOf(devices[k], lf, idx, systemRAM, sys), opts);
  }

  /** Every published accelerator is honest about memory and speed, given the entry it
      is paired with, which is one that lends to it, or none when no entry does. */
  lemma PublishedAcceleratorIsHonest(devices: seq<ProbeDevice>, idx: Index, systemRAM: nat, sys: Option<System>, opts: Options,
                                     k: nat, dev: Device)
    returns (lf: Option<LlmfitEntry>)
    requires IsEntryFor(devices, idx, systemRAM, sys, opts, k, dev) && (devices[k].kind == GPU || devices[k].kind == NPU)
    ensures IsPaired(devices, sys, k, lf)
    ensures HonestMemory(dev, devices[k], lf, idx, systemRAM)
    ensures HonestSpeed(dev, devices[k], lf, idx) && HonestProvenance(dev, devices[k], lf, idx)
  {
    hide HonestMemory, HonestSpeed, HonestProvenance;
    lf :| IsPaired(devices, sys, k, lf) && Describes(dev, devices[k], FactsOf(devices[k], lf, idx, systemRAM, sys), opts);
    AcceleratorMemory(dev, devices[k], lf, opts, idx, systemRAM, sys);
    AcceleratorSpeed(dev, devices[k], lf, opts, idx, systemRAM, sys);
  }

  /** No bounds, class or floor ever admits a fabric endpoint. */
  lemma NicNeverAdmitted(devices: seq<ProbeDevice>, idx: Index, systemRAM: nat, sys: Option<System>, opts: Options,
                         k: nat, dev: Device, b: Bounds, deviceClass: string, floor: nat)
    requires IsEntryFor(devices, idx, systemRAM, sys, opts, k, dev) && devices[k].kind == NIC
    ensures !LlmfitFit.Admits(b, deviceClass, floor, dev)
    ensures Cel.Fails(LlmfitFit.FitCEL(b, deviceClass, floor), LLMFIT_DOMAIN, dev)
  {
    hide LlmfitFit.FitCEL;
    EntryFacts(devices, idx, systemRAM, sys, opts, k, dev);
    LlmfitFit.FitCELCorrect(b, deviceClass, floor, dev);
  }

  /** A GPU that a default class admits is one the kubelet plugin can prepare:
      bound to a preparable driver, free of uncorrectable errors, and on a node
      where no vendor driver owns the GPUs. */
  lemma DefaultClassGpuIsPreparable(devices: seq<ProbeDevice>, idx: Index, systemRAM: nat, sys: Option<System>, opts: Options,
                                    k: nat, dev: Device, b: Bounds, deviceClass: string, floor: nat)
    requires IsEntryFor(devices, idx, systemRAM, sys, opts, k, dev) && devices[k].kind == GPU
    requires deviceClass == BASE_CLASS || deviceClass == GPU_CLASS
    requires LlmfitFit.Admits(b, deviceClass, floor, dev)
    ensures devices[k].driver in PREPARABLE && devices[k].driver != ""
    ensures devices[k].rasUncorrectable == 0
    ensures !opts.vendorManagedGPUs
  {
    var lf: Option<LlmfitEntry> :| IsPaired(devices, sys, k, lf)
      && Describes(dev, devices[k], FactsOf(devices[k], lf, idx, systemRAM, sys), opts);
    assert BoolOf(dev, "healthy") == Some(Healthy(devices[k]).0);
  }
}
