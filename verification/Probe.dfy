/** The normalised hardware inventory (pkg/probe/probe.go). */
module Probe {
  import Sorting
  import Text

  datatype DeviceKind = GPU | NPU | CPU | NIC

  datatype ProbeDevice = ProbeDevice(
    kind: DeviceKind,
    index: nat,
    pciVendor: string,
    pciDevice: string,
    pciAddr: string,
    pcieRoot: string,
    driver: string,
    vramBytes: nat,
    devNode: string,
    renderNode: string,
    cpuModel: string,
    systemRAMBytes: nat,
    rasUncorrectable: nat,
    uniqueID: string,
    ibLinkLayer: string,
    ibRateGbps: nat,
    ibPortActive: bool,
    netDev: string)

  function KindName(k: DeviceKind): string {
    match k
    case GPU => "gpu"
    case NPU => "npu"
    case CPU => "cpu"
    case NIC => "nic"
  }

  /** Usable or not, with the reason when not. */
  function Healthy(d: ProbeDevice): (bool, string) {
    if d.kind == CPU then (true, "")
    else if d.driver == "" then (false, "driverUnbound")
    else if d.rasUncorrectable > 0 then (false, "uncorrectableEcc")
    else if d.kind == NIC && !d.ibPortActive then (false, "portDown")
    else if d.kind == NIC && d.devNode == "" then (false, "noUverbsNode")
    else (true, "")
  }

  /** Replaces ':' and '.' by '-'. */
  function Dashed(s: string): string {
    seq(|s|, i requires 0 <= i < |s| => if s[i] == ':' || s[i] == '.' then '-' else s[i])
  }

  /** The stable device name: from the PCI address when there is one. */
  function Name(d: ProbeDevice): string {
    if d.pciAddr != "" then KindName(d.kind) + "-" + Dashed(d.pciAddr) else KindName(d.kind) + Text.Itoa(d.index)
  }

  predicate IsHex(c: char) {
    '0' <= c <= '9' || 'a' <= c <= 'f' || 'A' <= c <= 'F'
  }

  /** dddd:bb:dd.f, the shape the walk extracts. */
  predicate IsPciAddress(s: string) {
    && |s| == 12 && s[4] == ':' && s[7] == ':' && s[10] == '.'
    && forall i :: 0 <= i < 12 && i !in {4, 7, 10} ==> IsHex(s[i])
  }

  /** How names are spelled: the kind, then the PCI address with dashes for its
      punctuation, or the counter; letters, digits and dashes throughout. */
  lemma NameSpelled(d: ProbeDevice)
    requires d.pciAddr == "" || IsPciAddress(d.pciAddr)
    ensures var kind := match d.kind case GPU => "gpu" case NPU => "npu" case CPU => "cpu" case NIC => "nic";
            && kind <= Name(d)
            && (d.pciAddr == "" ==> Name(d) == kind + Text.Itoa(d.index))
            && (d.pciAddr != "" ==> |Name(d)| == 16 && Name(d)[3] == '-')
    ensures d.pciAddr != "" ==> forall i :: 4 <= i < 16 ==>
              Name(d)[i] == (if i == 8 || i == 11 || i == 14 then '-' else d.pciAddr[i - 4])
    ensures forall i :: 0 <= i < |Name(d)| ==> 'a' <= Name(d)[i] <= 'z' || 'A' <= Name(d)[i] <= 'F' || '0' <= Name(d)[i] <= '9' || Name(d)[i] == '-'
  {
    Text.ItoaRoundTrip(d.index);
    var kind := KindName(d.kind);
    if d.pciAddr == "" {
      assert forall i :: 3 <= i < |Name(d)| ==> Name(d)[i] == Text.Itoa(d.index)[i - 3];
    } else {
      assert Name(d) == kind + ("-" + Dashed(d.pciAddr));
      assert forall i :: 4 <= i < 16 ==> Name(d)[i] == Dashed(d.pciAddr)[i - 4];
    }
  }

  /** A name identifies one kind and one PCI function: no two share it, and no
      counter-named device takes a PCI device's name. */
  lemma NameIdentifies(d: ProbeDevice, e: ProbeDevice)
    requires Name(d) == Name(e)
    requires d.pciAddr == "" || IsPciAddress(d.pciAddr)
    requires e.pciAddr == "" || IsPciAddress(e.pciAddr)
    ensures d.kind == e.kind && d.pciAddr == e.pciAddr && (d.pciAddr == "" ==> d.index == e.index)
  {
    assert |KindName(d.kind)| == |KindName(e.kind)| == 3;
    assert Name(d)[..3] == KindName(d.kind) && Name(e)[..3] == KindName(e.kind);
    KindNameInjective(d.kind, e.kind);
    CounterNameHasDigit(d);
    CounterNameHasDigit(e);
    assert d.pciAddr != "" ==> Name(d)[3] == '-';
    assert e.pciAddr != "" ==> Name(e)[3] == '-';
    assert d.pciAddr == "" <==> e.pciAddr == "";
    if d.pciAddr == "" {
      assert Name(d)[3..] == Text.Itoa(d.index) && Name(e)[3..] == Text.Itoa(e.index);
      Text.ItoaInjective(d.index, e.index);
    } else {
      assert Name(d)[4..] == Dashed(d.pciAddr);
      assert Name(e)[4..] == Dashed(e.pciAddr);
      DashedInjective(d.pciAddr, e.pciAddr);
    }
  }

  lemma KindNameInjective(k: DeviceKind, l: DeviceKind)
    requires KindName(k) == KindName(l)
    ensures k == l
  {
    assert KindName(k)[0] == KindName(l)[0] && KindName(k)[1] == KindName(l)[1] && KindName(k)[2] == KindName(l)[2];
  }

  lemma CounterNameHasDigit(d: ProbeDevice)
    ensures d.pciAddr == "" ==> |Name(d)| > 3 && Text.IsDigit(Name(d)[3])
  {
    Text.ItoaRoundTrip(d.index);
    assert |Text.Itoa(d.index)| > 0;
    assert d.pciAddr == "" ==> Name(d)[3] == Text.Itoa(d.index)[0];
  }

  lemma DashedInjective(a: string, b: string)
    requires IsPciAddress(a) && IsPciAddress(b) && Dashed(a) == Dashed(b)
    ensures a == b
  {
    forall i | 0 <= i < 12
      ensures a[i] == b[i]
    {
      assert Dashed(a)[i] == Dashed(b)[i];
    }
  }

  /** What one class directory yields: one kind, numbered in order. */
  predicate IsClass(ds: seq<ProbeDevice>, k: DeviceKind) {
    forall i :: 0 <= i < |ds| ==> ds[i].kind == k && ds[i].index == i
  }

  /** Addresses have the PCI shape, and no two entries sit on the same function. */
  predicate Located(ds: seq<ProbeDevice>) {
    && (forall i :: 0 <= i < |ds| ==> ds[i].pciAddr == "" || IsPciAddress(ds[i].pciAddr))
    && (forall i, j :: 0 <= i < j < |ds| && ds[i].pciAddr != "" ==> ds[i].pciAddr != ds[j].pciAddr)
  }

  // ---- Classifying fabric functions ---------------------------------------------

  predicate IsFabric(d: ProbeDevice, fabric: set<string>) {
    d.pciAddr != "" && d.pciAddr in fabric
  }

  /** The compute candidates that are not fabric endpoints, in order. */
  function Compute(ds: seq<ProbeDevice>, fabric: set<string>): seq<ProbeDevice> {
    if ds == [] then []
    else
      var last := ds[|ds| - 1];
      Compute(ds[..|ds| - 1], fabric) + (if IsFabric(last, fabric) then [] else [last])
  }

  lemma {:induction false} ComputeKeeps(ds: seq<ProbeDevice>, fabric: set<string>)
    ensures forall d :: d in Compute(ds, fabric) <==> d in ds && !IsFabric(d, fabric)
  {
    if ds != [] {
      ComputeKeeps(ds[..|ds| - 1], fabric);
      assert ds == ds[..|ds| - 1] + [ds[|ds| - 1]];
    }
  }

  /** Filters in place: the kept devices move to the front of the same array. */
  method DropFabricFunctions(devices: array<ProbeDevice>, fabric: set<string>) returns (n: nat)
    modifies devices
    ensures n <= devices.Length
    ensures devices[..n] == Compute(old(devices[..]), fabric)
  {
    n := 0;
    ghost var was := devices[..];
    for i := 0 to devices.Length
      invariant n <= i
      invariant devices[..n] == Compute(was[..i], fabric)
      invariant forall k :: i <= k < devices.Length ==> devices[k] == was[k]
    {
      var d := devices[i];
      assert was[..i + 1][..i] == was[..i];
      if !IsFabric(d, fabric) {
        devices[n] := d;
        n := n + 1;
      }
    }
    assert was[..devices.Length] == was;
  }

  /** An RDMA class entry: the device read from it and the resolved path of its
      device directory, "" when it cannot be resolved. */
  datatype FabricEntry = FabricEntry(device: ProbeDevice, realPath: string)

  function FabricKey(e: FabricEntry): string {
    if e.device.pciAddr != "" then e.device.pciAddr else e.realPath
  }

  /** Addresses have the PCI shape, resolved paths are absolute. */
  predicate WellFormedEntry(e: FabricEntry) {
    && e.device.kind == NIC
    && (e.device.pciAddr != "" ==> IsPciAddress(e.device.pciAddr))
    && (e.realPath != "" ==> e.realPath[0] == '/')
  }

  /** The first entry of every key, and every entry without one, in order. */
  function Firsts(entries: seq<FabricEntry>): seq<FabricEntry> {
    if entries == [] then []
    else
      var init, last := entries[..|entries| - 1], entries[|entries| - 1];
      Firsts(init) + (if FabricKey(last) != "" && FabricKey(last) in Keys(init) then [] else [last])
  }

  function Keys(entries: seq<FabricEntry>): set<string> {
    set e | e in entries :: FabricKey(e)
  }

  lemma KeysOneMore(entries: seq<FabricEntry>, n: nat)
    requires n < |entries|
    ensures Keys(entries[..n + 1]) == Keys(entries[..n]) + {FabricKey(entries[n])}
    ensures Firsts(entries[..n + 1]) ==
            Firsts(entries[..n]) + (if FabricKey(entries[n]) != "" && FabricKey(entries[n]) in Keys(entries[..n]) then [] else [entries[n]])
  {
    var more := entries[..n + 1];
    assert more[..n] == entries[..n];
    assert forall e :: e in more <==> e in entries[..n] || e == entries[n];
  }

  /** The devices of these entries, numbered by position. */
  function Numbered(entries: seq<FabricEntry>): seq<ProbeDevice> {
    seq(|entries|, i requires 0 <= i < |entries| => entries[i].device.(index := i))
  }

  lemma NumberedOneMore(entries: seq<FabricEntry>, e: FabricEntry)
    ensures Numbered(entries + [e]) == Numbered(entries) + [e.device.(index := |entries|)]
  {
    var n := |entries|;
    assert forall i :: 0 <= i < n ==> (entries + [e])[i] == entries[i];
  }

  lemma NoEntries()
    ensures Firsts([]) == [] && Keys([]) == {}
  {
  }

  /** One PCI function may register several RDMA class entries; only the first of
      each becomes a device, numbered in order. */
  method DedupeFabric(entries: seq<FabricEntry>) returns (nics: seq<ProbeDevice>)
    ensures nics == Numbered(Firsts(entries))
  {
    hide FabricKey, Firsts, Keys;
    nics := [];
    var seen: set<string> := {};
    var idx: nat := 0;
    NoEntries();
    for n := 0 to |entries|
      invariant idx == |nics|
      invariant nics == Numbered(Firsts(entries[..n]))
      invariant seen == Keys(entries[..n]) - {""}
    {
      KeysOneMore(entries, n);
      var e := entries[n];
      var key := FabricKey(e);
      if key != "" {
        if key in seen {
          continue;
        }
        seen := seen + {key};
      }
      NumberedOneMore(Firsts(entries[..n]), e);
      nics := nics + [e.device.(index := idx)];
      idx := idx + 1;
    }
    assert entries[..|entries|] == entries;
  }

  lemma {:induction false} FirstsAreFirst(entries: seq<FabricEntry>)
    ensures forall e :: e in Firsts(entries) ==> e in entries
    ensures Keys(Firsts(entries)) == Keys(entries)
    ensures KeysDiffer(Firsts(entries))
  {
    hide FabricKey;
    if entries != [] {
      var n := |entries| - 1;
      FirstsAreFirst(entries[..n]);
      KeysOneMore(entries, n);
      assert entries[..n + 1] == entries;
      var init, last := Firsts(entries[..n]), entries[n];
      if Firsts(entries) != init {
        AppendKey(init, last);
      }
    }
  }

  ghost predicate KeysDiffer(entries: seq<FabricEntry>) {
    forall i, j :: 0 <= i < j < |entries| && FabricKey(entries[i]) != "" ==> FabricKey(entries[i]) != FabricKey(entries[j])
  }

  lemma AppendKey(init: seq<FabricEntry>, last: FabricEntry)
    requires KeysDiffer(init) && (FabricKey(last) == "" || FabricKey(last) !in Keys(init))
    ensures KeysDiffer(init + [last])
    ensures Keys(init + [last]) == Keys(init) + {FabricKey(last)}
  {
    hide FabricKey;
    var more := init + [last];
    assert forall e :: e in more <==> e in init || e == last;
    forall i, j | 0 <= i < j < |more| && FabricKey(more[i]) != ""
      ensures FabricKey(more[i]) != FabricKey(more[j])
    {
      if j == |init| {
        assert init[i] in init;
        assert FabricKey(init[i]) in Keys(init);
      }
    }
  }

  function FabricAddresses(nics: seq<ProbeDevice>): set<string> {
    set n | n in nics && n.pciAddr != "" :: n.pciAddr
  }

  function EntryAddresses(entries: seq<FabricEntry>): set<string> {
    set e | e in entries && e.device.pciAddr != "" :: e.device.pciAddr
  }

  /** An address never equals a resolved path. */
  lemma SameKeySameAddress(e: FabricEntry, f: FabricEntry)
    requires WellFormedEntry(e) && WellFormedEntry(f) && e.device.pciAddr != "" && FabricKey(f) == FabricKey(e)
    ensures f.device.pciAddr == e.device.pciAddr
  {
    assert IsHex(e.device.pciAddr[0]);
  }

  lemma NumberedIsClass(kept: seq<FabricEntry>)
    requires (forall i :: 0 <= i < |kept| ==> WellFormedEntry(kept[i])) && KeysDiffer(kept)
    ensures IsClass(Numbered(kept), NIC) && Located(Numbered(kept))
  {
    hide IsPciAddress;
    var nics := Numbered(kept);
    forall i, j | 0 <= i < j < |nics| && nics[i].pciAddr != ""
      ensures nics[i].pciAddr != nics[j].pciAddr
    {
      assert FabricKey(kept[i]) != FabricKey(kept[j]);
    }
  }

  lemma NumberedAddresses(kept: seq<FabricEntry>)
    ensures FabricAddresses(Numbered(kept)) == EntryAddresses(kept)
  {
    var nics := Numbered(kept);
    forall a | a in FabricAddresses(nics)
      ensures a in EntryAddresses(kept)
    {
      var d :| d in nics && d.pciAddr != "" && d.pciAddr == a;
      var i :| 0 <= i < |nics| && nics[i] == d;
      assert kept[i] in kept && kept[i].device.pciAddr == a;
    }
    forall a | a in EntryAddresses(kept)
      ensures a in FabricAddresses(nics)
    {
      var e :| e in kept && e.device.pciAddr != "" && e.device.pciAddr == a;
      var i :| 0 <= i < |kept| && kept[i] == e;
      assert nics[i] in nics && nics[i].pciAddr == a;
    }
  }

  lemma SameKeysSameAddresses(kept: seq<FabricEntry>, entries: seq<FabricEntry>)
    requires forall e :: e in entries ==> WellFormedEntry(e)
    requires (forall e :: e in kept ==> e in entries) && Keys(kept) == Keys(entries)
    ensures EntryAddresses(kept) == EntryAddresses(entries)
  {
    hide IsPciAddress, FabricKey, WellFormedEntry;
    forall e | e in entries && e.device.pciAddr != ""
      ensures e.device.pciAddr in EntryAddresses(kept)
    {
      assert FabricKey(e) in Keys(entries);
      var f :| f in kept && FabricKey(f) == FabricKey(e);
      SameKeySameAddress(e, f);
    }
  }

  /** Every PCI function that registers anything yields exactly one NIC. */
  lemma OneNicPerFunction(entries: seq<FabricEntry>)
    requires forall e :: e in entries ==> WellFormedEntry(e)
    ensures IsClass(Numbered(Firsts(entries)), NIC) && Located(Numbered(Firsts(entries)))
    ensures FabricAddresses(Numbered(Firsts(entries))) == EntryAddresses(entries)
  {
    hide IsClass, Located, Numbered, Firsts, WellFormedEntry, FabricKey, KeysDiffer, Keys;
    FirstsAreFirst(entries);
    var kept := Firsts(entries);
    assert forall i :: 0 <= i < |kept| ==> kept[i] in kept;
    NumberedIsClass(kept);
    NumberedAddresses(kept);
    SameKeysSameAddresses(kept, entries);
  }

  /** A candidate counts as compute exactly when no fabric endpoint sits on its PCI
      function; one without an address always does. */
  lemma FabricIsNeverCompute(candidates: seq<ProbeDevice>, nics: seq<ProbeDevice>, d: ProbeDevice)
    ensures d in Compute(candidates, FabricAddresses(nics)) <==>
            d in candidates && !(d.pciAddr != "" && exists n :: n in nics && n.pciAddr == d.pciAddr)
  {
    ComputeKeeps(candidates, FabricAddresses(nics));
    if n :| n in nics && n.pciAddr == d.pciAddr && d.pciAddr != "" {
      assert n.pciAddr in FabricAddresses(nics);
    }
  }

  /** An RDMA entry is kept exactly when no earlier one is on the same PCI function, or,
      for entries without an address, in the same device directory. */
  lemma FirstsNext(entries: seq<FabricEntry>, n: nat)
    requires n < |entries| && forall e :: e in entries ==> WellFormedEntry(e)
    ensures Firsts(entries[..n + 1]) ==
            Firsts(entries[..n]) + (if exists m :: 0 <= m < n && SameFunction(entries[m], entries[n]) then [] else [entries[n]])
  {
    hide WellFormedEntry, Firsts;
    KeysOneMore(entries, n);
    var e := entries[n];
    if FabricKey(e) != "" && FabricKey(e) in Keys(entries[..n]) {
      var f :| f in entries[..n] && FabricKey(f) == FabricKey(e);
      var m :| 0 <= m < n && entries[m] == f;
      SameKeyIffSameFunction(f, e);
    }
    if m :| 0 <= m < n && SameFunction(entries[m], e) {
      SameKeyIffSameFunction(entries[m], e);
      assert entries[m] in entries[..n];
    }
  }

  predicate SameFunction(e: FabricEntry, f: FabricEntry) {
    if e.device.pciAddr != "" then e.device.pciAddr == f.device.pciAddr
    else f.device.pciAddr == "" && e.realPath != "" && e.realPath == f.realPath
  }

  lemma SameKeyIffSameFunction(e: FabricEntry, f: FabricEntry)
    requires WellFormedEntry(e) && WellFormedEntry(f)
    ensures FabricKey(e) == FabricKey(f) != "" <==> SameFunction(e, f)
  {
    if e.device.pciAddr != "" && FabricKey(e) == FabricKey(f) {
      SameKeySameAddress(e, f);
    }
    if f.device.pciAddr != "" && FabricKey(e) == FabricKey(f) {
      SameKeySameAddress(f, e);
    }
  }

  // ---- The walk ------------------------------------------------------------------

  /** Rank of a kind under string comparison of the kind names. */
  function KindRank(k: DeviceKind): nat {
    match k
    case CPU => 0
    case GPU => 1
    case NIC => 2
    case NPU => 3
  }

  predicate DeviceLess(d: ProbeDevice, e: ProbeDevice) {
    if d.kind != e.kind then KindRank(d.kind) < KindRank(e.kind) else d.index < e.index
  }

  /** The rank is the order of the names as strings. */
  lemma KindRankIsNameOrder(k: DeviceKind, l: DeviceKind)
    ensures KindRank(k) < KindRank(l) <==> Text.Less(KindName(k), KindName(l))
  {
    assert "cpu"[0] < "gpu"[0] < "nic"[0] == "npu"[0] && "nic"[1] < "npu"[1];
    assert "nic"[1..] == "ic" && "npu"[1..] == "pu";
  }

  lemma DeviceLessIsOrdering()
    ensures Sorting.Ordering(DeviceLess)
  {
  }

  /** Before sorting: compute devices that are no fabric endpoints, the fabric
      endpoints, and the CPU fallback. */
  function Enumerated(gpus: seq<ProbeDevice>, npus: seq<ProbeDevice>, nics: seq<ProbeDevice>, cpu: ProbeDevice): seq<ProbeDevice> {
    Compute(gpus, FabricAddresses(nics)) + Compute(npus, FabricAddresses(nics)) + nics + [cpu]
  }

  ghost predicate IsWalk(gpus: seq<ProbeDevice>, npus: seq<ProbeDevice>, nics: seq<ProbeDevice>, cpu: ProbeDevice, out: seq<ProbeDevice>) {
    && Sorting.Sorted(out, DeviceLess)
    && multiset(out) == multiset(Enumerated(gpus, npus, nics, cpu))
  }

  /** Enumerates, filters both compute classes in place, and sorts. */
  method Walk(gpus: array<ProbeDevice>, npus: array<ProbeDevice>, entries: seq<FabricEntry>, cpu: ProbeDevice)
    returns (out: seq<ProbeDevice>)
    requires gpus != npus
    modifies gpus, npus
    ensures IsWalk(old(gpus[..]), old(npus[..]), Numbered(Firsts(entries)), cpu, out)
  {
    var nics := DedupeFabric(entries);
    var fabric := FabricAddresses(nics);
    var g := DropFabricFunctions(gpus, fabric);
    var n := DropFabricFunctions(npus, fabric);
    DeviceLessIsOrdering();
    out := Sorting.Sort(gpus[..g] + npus[..n] + nics + [cpu], DeviceLess);
  }

  lemma ClassPrefix(ds: seq<ProbeDevice>, k: DeviceKind)
    requires IsClass(ds, k) && ds != []
    ensures IsClass(ds[..|ds| - 1], k) && ds[|ds| - 1].kind == k
    ensures forall d :: d in ds[..|ds| - 1] ==> d.index < ds[|ds| - 1].index
  {
    hide IsPciAddress;
    var init := ds[..|ds| - 1];
    forall d | d in init
      ensures d.index < ds[|ds| - 1].index
    {
      var i :| 0 <= i < |init| && init[i] == d;
      assert ds[i] == d;
    }
  }

  lemma AppendLargest(c: seq<ProbeDevice>, last: ProbeDevice)
    requires Sorting.StrictlySorted(c, DeviceLess) && forall d :: d in c ==> DeviceLess(d, last)
    ensures Sorting.StrictlySorted(c + [last], DeviceLess)
    ensures forall d :: d in c + [last] <==> d in c || d == last
  {
    hide DeviceLess;
    assert forall i :: 0 <= i < |c| ==> c[i] in c;
  }

  lemma {:induction false} ComputeIsClass(ds: seq<ProbeDevice>, k: DeviceKind, fabric: set<string>)
    requires IsClass(ds, k)
    ensures forall d :: d in Compute(ds, fabric) ==> d.kind == k
    ensures Sorting.StrictlySorted(Compute(ds, fabric), DeviceLess)
  {
    hide IsClass, IsFabric;
    if ds != [] {
      var init, last := ds[..|ds| - 1], ds[|ds| - 1];
      ClassPrefix(ds, k);
      ComputeIsClass(init, k, fabric);
      ComputeKeeps(init, fabric);
      AppendLargest(Compute(init, fabric), last);
    }
  }

  /** In the enumeration, no two devices tie. */
  lemma EnumeratedDistinct(gpus: seq<ProbeDevice>, npus: seq<ProbeDevice>, nics: seq<ProbeDevice>, cpu: ProbeDevice)
    requires IsClass(gpus, GPU) && IsClass(npus, NPU) && IsClass(nics, NIC) && IsClass([cpu], CPU)
    ensures var all := Enumerated(gpus, npus, nics, cpu);
            forall i, j :: 0 <= i < j < |all| ==> DeviceLess(all[i], all[j]) || DeviceLess(all[j], all[i])
  {
    hide IsPciAddress;
    var fabric := FabricAddresses(nics);
    var g, n := Compute(gpus, fabric), Compute(npus, fabric);
    ComputeIsClass(gpus, GPU, fabric);
    ComputeIsClass(npus, NPU, fabric);
    hide Compute, FabricAddresses;
    assert Enumerated(gpus, npus, nics, cpu) == g + n + nics + [cpu];
    assert [cpu][0] == cpu;
    assert forall i :: 0 <= i < |g| ==> g[i] in g;
    assert forall i :: 0 <= i < |n| ==> n[i] in n;
  }

  lemma SameKindSameDevice(ds: seq<ProbeDevice>, k: DeviceKind, fabric: set<string>, d: ProbeDevice, e: ProbeDevice)
    requires IsClass(ds, k) && OncePerFunction(ds, fabric) && d in ds && e in ds && !IsFabric(d, fabric)
    requires d.pciAddr == e.pciAddr && (d.pciAddr == "" ==> d.index == e.index)
    ensures d == e
  {
    hide IsPciAddress;
  }

  lemma LocatedIsOnce(ds: seq<ProbeDevice>)
    requires Located(ds)
    ensures Shaped(ds) && OncePerFunction(ds, {})
  {
  }

  lemma EnumeratedNames(gpus: seq<ProbeDevice>, npus: seq<ProbeDevice>, nics: seq<ProbeDevice>, cpu: ProbeDevice,
                        d: ProbeDevice, e: ProbeDevice)
    requires IsClass(gpus, GPU) && IsClass(npus, NPU) && IsClass(nics, NIC) && IsClass([cpu], CPU)
    requires Shaped(gpus) && Shaped(npus) && Located(nics) && Located([cpu])
    requires OncePerFunction(gpus, FabricAddresses(nics)) && OncePerFunction(npus, FabricAddresses(nics))
    requires d in Enumerated(gpus, npus, nics, cpu) && e in Enumerated(gpus, npus, nics, cpu) && Name(d) == Name(e)
    ensures d == e
  {
    hide Name, IsPciAddress, Compute, FabricAddresses, OncePerFunction, Located;
    var fabric := FabricAddresses(nics);
    ComputeKeeps(gpus, fabric);
    ComputeKeeps(npus, fabric);
    LocatedIsOnce(nics);
    LocatedIsOnce([cpu]);
    NameIdentifies(d, e);
    var ds := if d.kind == GPU then gpus else if d.kind == NPU then npus else if d.kind == NIC then nics else [cpu];
    assert d in ds && e in ds;
    SameKindSameDevice(ds, d.kind, if d.kind == GPU || d.kind == NPU then fabric else {}, d, e);
  }

  /** Consecutive walks of unchanged hardware compare equal, whatever the sort does
      with ties: there are none. */
  lemma WalkIsDeterministic(gpus: seq<ProbeDevice>, npus: seq<ProbeDevice>, nics: seq<ProbeDevice>, cpu: ProbeDevice,
                            a: seq<ProbeDevice>, c: seq<ProbeDevice>)
    requires IsClass(gpus, GPU) && IsClass(npus, NPU) && IsClass(nics, NIC) && IsClass([cpu], CPU)
    requires IsWalk(gpus, npus, nics, cpu, a) && IsWalk(gpus, npus, nics, cpu, c)
    ensures a == c
  {
    hide Enumerated, IsClass;
    WalkIsStrict(gpus, npus, nics, cpu, a);
    WalkIsStrict(gpus, npus, nics, cpu, c);
    DeviceLessIsOrdering();
    Sorting.SameElements(a, c);
    Sorting.StrictlySortedUnique(a, c, DeviceLess);
  }

  lemma WalkIsStrict(gpus: seq<ProbeDevice>, npus: seq<ProbeDevice>, nics: seq<ProbeDevice>, cpu: ProbeDevice, out: seq<ProbeDevice>)
    requires IsClass(gpus, GPU) && IsClass(npus, NPU) && IsClass(nics, NIC) && IsClass([cpu], CPU)
    requires IsWalk(gpus, npus, nics, cpu, out)
    ensures Sorting.StrictlySorted(out, DeviceLess) && Sorting.Distinct(out)
  {
    hide IsClass, Enumerated, DeviceLess;
    var all := Enumerated(gpus, npus, nics, cpu);
    EnumeratedDistinct(gpus, npus, nics, cpu);
    DeviceLessIsOrdering();
    Sorting.SameElements(out, all);
    Sorting.DistinctPermutation(out, all);
    forall i, j | 0 <= i < j < |out|
      ensures DeviceLess(out[i], out[j])
    {
      assert out[i] in all && out[j] in all && out[i] != out[j];
      var k :| 0 <= k < |all| && all[k] == out[i];
      var m :| 0 <= m < |all| && all[m] == out[j];
      assert !DeviceLess(out[j], out[i]);
    }
  }

  predicate Shaped(ds: seq<ProbeDevice>) {
    forall i :: 0 <= i < |ds| ==> ds[i].pciAddr == "" || IsPciAddress(ds[i].pciAddr)
  }

  /** The class lists each function once, fabric endpoints aside. */
  predicate OncePerFunction(ds: seq<ProbeDevice>, fabric: set<string>) {
    forall i, j :: 0 <= i < j < |ds| && ds[i].pciAddr != "" && !IsFabric(ds[i], fabric) ==> ds[i].pciAddr != ds[j].pciAddr
  }

  /** A walk lists the CPU, every NIC, and every accelerator on whose PCI function no NIC
      sits; nothing else. */
  lemma WalkLists(gpus: seq<ProbeDevice>, npus: seq<ProbeDevice>, nics: seq<ProbeDevice>, cpu: ProbeDevice, out: seq<ProbeDevice>, d: ProbeDevice)
    requires IsWalk(gpus, npus, nics, cpu, out)
    ensures d in out <==>
            || d == cpu || d in nics
            || ((d in gpus || d in npus) && !(d.pciAddr != "" && exists n :: n in nics && n.pciAddr == d.pciAddr))
  {
    hide Compute, FabricAddresses;
    Sorting.SameElements(out, Enumerated(gpus, npus, nics, cpu));
    FabricIsNeverCompute(gpus, nics, d);
    FabricIsNeverCompute(npus, nics, d);
  }

  /** The names of a walk differ, so that the publisher's and the inventory's ways of
      resolving clashes never come into play, exactly when neither compute class lists
      a function twice that is no fabric endpoint. */
  lemma WalkNamesDiffer(gpus: seq<ProbeDevice>, npus: seq<ProbeDevice>, nics: seq<ProbeDevice>, cpu: ProbeDevice, out: seq<ProbeDevice>)
    requires IsClass(gpus, GPU) && IsClass(npus, NPU) && IsClass(nics, NIC) && IsClass([cpu], CPU)
    requires Shaped(gpus) && Shaped(npus) && Located(nics) && Located([cpu])
    requires IsWalk(gpus, npus, nics, cpu, out)
    ensures (forall i, j :: 0 <= i < j < |out| ==> Name(out[i]) != Name(out[j]))
            <==> OncePerFunction(gpus, FabricAddresses(nics)) && OncePerFunction(npus, FabricAddresses(nics))
  {
    hide Name, IsClass, Located, Shaped, Enumerated, DeviceLess, OncePerFunction;
    var fabric := FabricAddresses(nics);
    hide FabricAddresses;
    if OncePerFunction(gpus, fabric) && OncePerFunction(npus, fabric) {
      WalkIsStrict(gpus, npus, nics, cpu, out);
      Sorting.SameElements(out, Enumerated(gpus, npus, nics, cpu));
      forall i, j | 0 <= i < j < |out| && Name(out[i]) == Name(out[j])
        ensures false
      {
        assert out[i] in out && out[j] in out;
        EnumeratedNames(gpus, npus, nics, cpu, out[i], out[j]);
      }
    } else if !OncePerFunction(gpus, fabric) {
      TwiceMeansClash(gpus, GPU, gpus, npus, nics, cpu, out);
    } else {
      TwiceMeansClash(npus, NPU, gpus, npus, nics, cpu, out);
    }
  }

  lemma TwiceMeansClash(ds: seq<ProbeDevice>, k: DeviceKind,
                        gpus: seq<ProbeDevice>, npus: seq<ProbeDevice>, nics: seq<ProbeDevice>, cpu: ProbeDevice, out: seq<ProbeDevice>)
    requires IsClass(ds, k) && (ds == gpus || ds == npus) && !OncePerFunction(ds, FabricAddresses(nics))
    requires IsWalk(gpus, npus, nics, cpu, out)
    ensures exists i, j :: 0 <= i < j < |out| && Name(out[i]) == Name(out[j])
  {
    var fabric := FabricAddresses(nics);
    var i, j :| 0 <= i < j < |ds| && ds[i].pciAddr != "" && !IsFabric(ds[i], fabric) && ds[i].pciAddr == ds[j].pciAddr;
    assert Name(ds[i]) == Name(ds[j]) && ds[i] != ds[j] && !IsFabric(ds[j], fabric);
    hide Name, DeviceLess, FabricAddresses, IsFabric;
    ComputeKeeps(gpus, fabric);
    ComputeKeeps(npus, fabric);
    Sorting.SameElements(out, Enumerated(gpus, npus, nics, cpu));
    assert ds[i] in out && ds[j] in out;
    var x :| 0 <= x < |out| && out[x] == ds[i];
    var y :| 0 <= y < |out| && out[y] == ds[j];
    if x < y {
      assert Name(out[x]) == Name(out[y]);
    } else {
      assert Name(out[y]) == Name(out[x]);
    }
  }
}
