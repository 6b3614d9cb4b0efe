/** The kubelet-facing half: preparing claims into CDI specs, and the spec store
    over the plugin's life (internal/nodeplugin/plugin.go, internal/nodeplugin/cdi.go). */
module NodePlugin {
  import opened Resources
  import opened Probe
  import Publisher
  import Sorting

  datatype CdiDevice = CdiDevice(name: string, env: seq<string>, nodes: seq<string>)

  datatype Edits = Edits(env: seq<string>, nodes: seq<string>)

  // ---- Container edits --------------------------------------------------------------

  const ROCR := "ROCR_VISIBLE_DEVICES=GPU-"

  function EnvName(name: string): string {
    seq(|name|, i requires 0 <= i < |name| => EnvChar(name[i]))
  }

  function EnvChar(c: char): char {
    if c == '-' then '_' else if 'a' <= c <= 'z' then c - 'a' + 'A' else c
  }

  /** Every /dev node the device needs, plus the variables that identify it. */
  function EditsFor(d: ProbeDevice): Edits {
    var perDevice := if d.renderNode != "" then d.renderNode else if d.devNode != "" then d.devNode else KindName(d.kind);
    var isNic := d.kind == NIC && d.devNode != "";
    Edits(
      ["LLMFIT_DEVICE=" + Name(d),
       "LLMFIT_DEVICE_KIND=" + KindName(d.kind),
       "LLMFIT_DEVICE_" + EnvName(Name(d)) + "=" + perDevice] +
      (if d.renderNode != "" then ["LLMFIT_RENDER_NODE=" + d.renderNode] else []) +
      (if isNic && d.netDev != "" then ["LLMFIT_NETDEV=" + d.netDev] else []),
      (if d.renderNode != "" then [d.renderNode] else []) +
      (if d.devNode != "" then [d.devNode] else []) +
      (if d.driver == "amdgpu" then ["/dev/kfd"] else []) +
      (if isNic then ["/dev/infiniband/rdma_cm"] else []))
  }

  /** The variable names a GPU isolation mask. */
  predicate IsMask(e: string) {
    |e| >= 4 && e[..4] == "ROCR"
  }

  lemma EditsCarryNoMask(d: ProbeDevice)
    ensures forall i :: 0 <= i < |EditsFor(d).env| ==> !IsMask(EditsFor(d).env[i])
  {
    forall i | 0 <= i < |EditsFor(d).env|
      ensures EditsFor(d).env[i] != [] && EditsFor(d).env[i][0] == 'L'
    {
    }
    assert "ROCR"[0] == 'R';
    forall i | 0 <= i < |EditsFor(d).env|
      ensures !IsMask(EditsFor(d).env[i])
    {
      var e := EditsFor(d).env[i];
      assert |e| >= 4 ==> e[..4][0] == 'L';
    }
  }

  predicate MapsTo(name: string, env: string) {
    |env| == |name| && forall i :: 0 <= i < |name| ==>
      if name[i] == '-' then env[i] == '_'
      else if 'a' <= name[i] <= 'z' then 'A' <= env[i] <= 'Z' && env[i] as int - 65 == name[i] as int - 97
      else env[i] == name[i]
  }

  /** What a device's variables say: its name, its kind, under its own name the node to
      open (render node first, then device node, then just the kind), its render node
      when it has one, its network interface for a NIC with verbs; and nothing else. */
  lemma EnvironmentExactly(d: ProbeDevice, e: string)
    ensures var kind := match d.kind case GPU => "gpu" case NPU => "npu" case CPU => "cpu" case NIC => "nic";
            var node := if d.renderNode != "" then d.renderNode else if d.devNode != "" then d.devNode else kind;
            && MapsTo(Name(d), EnvName(Name(d)))
            && (e in EditsFor(d).env <==>
                  || e == "LLMFIT_DEVICE=" + Name(d)
                  || e == "LLMFIT_DEVICE_KIND=" + kind
                  || e == "LLMFIT_DEVICE_" + EnvName(Name(d)) + "=" + node
                  || (d.renderNode != "" && e == "LLMFIT_RENDER_NODE=" + d.renderNode)
                  || (d.kind == NIC && d.devNode != "" && d.netDev != "" && e == "LLMFIT_NETDEV=" + d.netDev))
  {
    hide Name;
  }

  /** What it opens: its render and device nodes, the ROCm control node for amdgpu, the
      connection manager for a NIC with verbs; and nothing else. */
  predicate Opens(d: ProbeDevice, n: string) {
    || (n != "" && (n == d.renderNode || n == d.devNode))
    || (n == "/dev/kfd" && d.driver == "amdgpu")
    || (n == "/dev/infiniband/rdma_cm" && d.kind == NIC && d.devNode != "")
  }

  lemma NodesExactly(d: ProbeDevice, n: string)
    ensures n in EditsFor(d).nodes <==> Opens(d, n)
  {
  }

  // ---- Injecting each node once per claim -----------------------------------------------

  /** The nodes not seen before, first occurrences only, in order. */
  function NewNodes(nodes: seq<string>, seen: set<string>): seq<string> {
    if nodes == [] then []
    else
      var init, last := nodes[..|nodes| - 1], nodes[|nodes| - 1];
      NewNodes(init, seen) + (if last in seen || last in init then [] else [last])
  }

  function SetOf(nodes: seq<string>): set<string> {
    set n | n in nodes
  }

  lemma {:induction false} NewNodesMeaning(nodes: seq<string>, seen: set<string>)
    ensures SetOf(NewNodes(nodes, seen)) == SetOf(nodes) - seen
    ensures Sorting.Distinct(NewNodes(nodes, seen))
  {
    if nodes != [] {
      var init, last := nodes[..|nodes| - 1], nodes[|nodes| - 1];
      NewNodesMeaning(init, seen);
      assert nodes == init + [last];
      var rest := NewNodes(init, seen);
      assert forall n :: n in rest <==> n in SetOf(rest);
      assert last in rest ==> last in init;
      assert forall n :: n in NewNodes(nodes, seen) <==> n in rest || (n == last && last !in seen && last !in init);
    }
  }

  lemma NewNodesStep(nodes: seq<string>, i: nat, seen: set<string>)
    requires i < |nodes|
    ensures SetOf(nodes[..i + 1]) == SetOf(nodes[..i]) + {nodes[i]}
    ensures NewNodes(nodes[..i + 1], seen) ==
            NewNodes(nodes[..i], seen) + (if nodes[i] in seen + SetOf(nodes[..i]) then [] else [nodes[i]])
    ensures |NewNodes(nodes[..i], seen)| <= i
  {
    assert nodes[..i + 1] == nodes[..i] + [nodes[i]];
    assert nodes[..i + 1][..i] == nodes[..i];
    NewNodesShort(nodes[..i], seen);
  }

  lemma {:induction false} NewNodesShort(nodes: seq<string>, seen: set<string>)
    ensures |NewNodes(nodes, seen)| <= |nodes|
  {
    if nodes != [] {
      NewNodesShort(nodes[..|nodes| - 1], seen);
    }
  }

  lemma NoNodes(seen: set<string>)
    ensures NewNodes([], seen) == [] && SetOf([]) == {}
  {
  }

  /** Filters in place over the same backing array, as Go's `nodes[:0]` does. */
  method DedupeNodes(nodes: array<string>, seen: set<string>) returns (n: nat, seenAfter: set<string>)
    modifies nodes
    ensures n <= nodes.Length
    ensures nodes[..n] == NewNodes(old(nodes[..]), seen)
    ensures seenAfter == seen + SetOf(old(nodes[..]))
  {
    hide NewNodes, SetOf;
    n, seenAfter := 0, seen;
    ghost var was := nodes[..];
    NoNodes(seen);
    for i := 0 to nodes.Length
      invariant n <= i
      invariant nodes[..n] == NewNodes(was[..i], seen)
      invariant forall k :: i <= k < nodes.Length ==> nodes[k] == was[k]
      invariant seenAfter == seen + SetOf(was[..i])
    {
      NewNodesStep(was, i, seen);
      var node := nodes[i];
      if node !in seenAfter {
        seenAfter := seenAfter + {node};
        nodes[n] := node;
        n := n + 1;
      }
    }
    assert was[..nodes.Length] == was;
  }

  /** All device nodes of a spec, device after device. */
  function AllNodes(spec: seq<CdiDevice>): seq<string> {
    if spec == [] then [] else AllNodes(spec[..|spec| - 1]) + spec[|spec| - 1].nodes
  }

  lemma AllNodesOneMore(spec: seq<CdiDevice>, c: CdiDevice)
    ensures AllNodes(spec + [c]) == AllNodes(spec) + c.nodes
  {
    assert (spec + [c])[..|spec|] == spec;
  }

  // ---- The claim's own devices -------------------------------------------------------------

  /** The allocation results that belong to this driver, in order. */
  function Own(results: seq<Allocation>): seq<Allocation> {
    if results == [] then []
    else
      var last := results[|results| - 1];
      Own(results[..|results| - 1]) + (if last.driver == LLMFIT_DOMAIN then [last] else [])
  }

  lemma OwnOneMore(results: seq<Allocation>, j: nat)
    requires j < |results|
    ensures Own(results[..j + 1]) == Own(results[..j]) + (if results[j].driver == LLMFIT_DOMAIN then [results[j]] else [])
  {
    assert results[..j + 1][..j] == results[..j];
  }

  lemma {:induction false} OwnMembers(results: seq<Allocation>)
    ensures forall r :: r in Own(results) <==> r in results && r.driver == LLMFIT_DOMAIN
  {
    if results != [] {
      OwnMembers(results[..|results| - 1]);
      assert results == results[..|results| - 1] + [results[|results| - 1]];
    }
  }

  /** The filter keeps exactly this driver's results, with their multiplicity. */
  lemma {:induction false} OwnCounts(results: seq<Allocation>, r: Allocation)
    ensures multiset(Own(results))[r] == if r.driver == "llmfit.ai" then multiset(results)[r] else 0
  {
    if results != [] {
      var init, last := results[..|results| - 1], results[|results| - 1];
      OwnCounts(init, r);
      assert results == init + [last];
      assert multiset(results) == multiset(init) + multiset{last};
    }
  }

  ghost predicate AllKnown(own: seq<Allocation>, inv: map<string, ProbeDevice>) {
    forall i :: 0 <= i < |own| ==> own[i].device in inv
  }

  /** The union of the edits' nodes over the claim's devices. */
  ghost function NeededNodes(own: seq<Allocation>, inv: map<string, ProbeDevice>): set<string>
    requires AllKnown(own, inv)
  {
    set i, n | 0 <= i < |own| && n in EditsFor(inv[own[i].device]).nodes :: n
  }

  /** Before masks: one entry per device, named after claim and device, carrying
      its variables; every needed node exactly once over the whole spec. */
  ghost predicate Plain(uid: string, own: seq<Allocation>, inv: map<string, ProbeDevice>, spec: seq<CdiDevice>)
  {
    && AllKnown(own, inv)
    && |spec| == |own|
    && (forall i :: 0 <= i < |own| ==>
          spec[i].name == uid + "-" + own[i].device && spec[i].env == EditsFor(inv[own[i].device]).env)
    && Sorting.Distinct(AllNodes(spec))
    && SetOf(AllNodes(spec)) == NeededNodes(own, inv)
  }

  lemma PlainFromNothing(uid: string, inv: map<string, ProbeDevice>)
    ensures Plain(uid, [], inv, []) && NeededNodes([], inv) == {}
  {
  }

  lemma PlainOneMore(uid: string, own: seq<Allocation>, inv: map<string, ProbeDevice>, spec: seq<CdiDevice>, r: Allocation)
    requires Plain(uid, own, inv, spec) && r.device in inv
    ensures var edits := EditsFor(inv[r.device]);
            var c := CdiDevice(uid + "-" + r.device, edits.env, NewNodes(edits.nodes, NeededNodes(own, inv)));
            Plain(uid, own + [r], inv, spec + [c])
    ensures AllKnown(own + [r], inv)
    ensures NeededNodes(own + [r], inv) == NeededNodes(own, inv) + SetOf(EditsFor(inv[r.device]).nodes)
  {
    hide EditsFor, NewNodes, NeededNodes, SetOf;
    var edits := EditsFor(inv[r.device]);
    var nodes := NewNodes(edits.nodes, NeededNodes(own, inv));
    var c := CdiDevice(uid + "-" + r.device, edits.env, nodes);
    NeededOneMore(own, inv, r);
    NewNodesMeaning(edits.nodes, NeededNodes(own, inv));
    AllNodesOneMore(spec, c);
    ConcatNodes(AllNodes(spec), nodes);
    assert AllKnown(own + [r], inv);
    assert forall i :: 0 <= i < |own| ==> (own + [r])[i] == own[i] && (spec + [c])[i] == spec[i];
  }

  lemma ConcatNodes(a: seq<string>, c: seq<string>)
    ensures SetOf(a + c) == SetOf(a) + SetOf(c)
    ensures Sorting.Distinct(a) && Sorting.Distinct(c) && SetOf(a) !! SetOf(c) ==> Sorting.Distinct(a + c)
  {
    var e := a + c;
    if Sorting.Distinct(a) && Sorting.Distinct(c) && SetOf(a) !! SetOf(c) {
      assert forall i :: 0 <= i < |a| ==> a[i] in SetOf(a);
      assert forall i :: 0 <= i < |c| ==> c[i] in SetOf(c);
      forall i, j | 0 <= i < j < |e|
        ensures e[i] != e[j]
      {
        if j < |a| {
          assert a[i] != a[j];
        } else if i >= |a| {
          assert c[i - |a|] != c[j - |a|];
        } else {
          assert a[i] in SetOf(a) && c[j - |a|] in SetOf(c);
        }
      }
    }
  }

  lemma NeededOneMore(own: seq<Allocation>, inv: map<string, ProbeDevice>, r: Allocation)
    requires AllKnown(own, inv) && r.device in inv
    ensures AllKnown(own + [r], inv)
    ensures NeededNodes(own + [r], inv) == NeededNodes(own, inv) + SetOf(EditsFor(inv[r.device]).nodes)
  {
    hide EditsFor;
    var more := own + [r];
    assert more[|own|] == r;
    assert forall i :: 0 <= i < |own| ==> more[i] == own[i];
    forall n | n in NeededNodes(own, inv) + SetOf(EditsFor(inv[r.device]).nodes)
      ensures n in NeededNodes(more, inv)
    {
      if n in NeededNodes(own, inv) {
        var i :| 0 <= i < |own| && n in EditsFor(inv[own[i].device]).nodes;
        assert n in EditsFor(inv[more[i].device]).nodes;
      } else {
        assert n in EditsFor(inv[more[|own|].device]).nodes;
      }
    }
  }

  // ---- GPU isolation ---------------------------------------------------------------------------

  function Join(ids: seq<string>, sep: string): string {
    if ids == [] then "" else if |ids| == 1 then ids[0] else Join(ids[..|ids| - 1], sep) + sep + ids[|ids| - 1]
  }

  /** The last piece grown by `w`. */
  function Grown(pieces: seq<string>, w: string): (r: seq<string>)
    requires pieces != []
    ensures r != []
  {
    pieces[..|pieces| - 1] + [pieces[|pieces| - 1] + w]
  }

  lemma GrownTwice(pieces: seq<string>, v: string, w: string)
    requires pieces != []
    ensures Grown(Grown(pieces, v), w) == Grown(pieces, v + w)
    ensures Grown(pieces, "") == pieces
  {
    var n := |pieces| - 1;
    assert Grown(pieces, v)[..n] == pieces[..n];
    assert (pieces[n] + v) + w == pieces[n] + (v + w);
    assert pieces[n] + "" == pieces[n];
  }

  /** The pieces of `s` between separators. */
  function Split(s: string, sep: char): (r: seq<string>)
    ensures r != []
  {
    if s == "" then [""]
    else
      var init, last := Split(s[..|s| - 1], sep), s[|s| - 1];
      if last == sep then init + [""] else Grown(init, [last])
  }

  lemma {:induction false} SplitWord(s: string, w: string, sep: char)
    requires sep !in w
    ensures Split(s + w, sep) == Grown(Split(s, sep), w)
  {
    hide Grown;
    if w == "" {
      assert s + w == s;
      GrownTwice(Split(s, sep), "", "");
    } else {
      var init, last := w[..|w| - 1], w[|w| - 1];
      SplitWord(s, init, sep);
      assert (s + w)[..|s + w| - 1] == s + init;
      assert w == init + [last];
      GrownTwice(Split(s, sep), init, [last]);
    }
  }

  lemma SplitSeparator(s: string, sep: char)
    ensures Split(s + [sep], sep) == Split(s, sep) + [""]
  {
    assert (s + [sep])[..|s|] == s;
  }

  function Prefixed(ids: seq<string>): seq<string> {
    seq(|ids|, i requires 0 <= i < |ids| => "GPU-" + ids[i])
  }

  function Listed(ids: seq<string>): string {
    "GPU-" + Join(ids, ",GPU-")
  }

  lemma ListedOneMore(ids: seq<string>)
    requires |ids| > 1
    ensures Listed(ids) == (Listed(ids[..|ids| - 1]) + [',']) + ("GPU-" + ids[|ids| - 1])
    ensures Prefixed(ids) == Prefixed(ids[..|ids| - 1]) + ["GPU-" + ids[|ids| - 1]]
  {
    assert ",GPU-" == [','] + "GPU-";
  }

  lemma AppendListed(s: string, w: string)
    requires ',' !in w
    ensures Split((s + [',']) + w, ',') == Split(s, ',') + [w]
  {
    SplitSeparator(s, ',');
    SplitWord(s + [','], w, ',');
    assert "" + w == w;
  }

  /** Reading a mask back: split at the commas, it names every GPU of the list, in
      order, and no other. */
  lemma {:induction false} MaskRoundTrip(ids: seq<string>)
    requires ids != [] && forall i :: 0 <= i < |ids| ==> ',' !in ids[i]
    ensures ROCR + Join(ids, ",GPU-") == "ROCR_VISIBLE_DEVICES=" + Listed(ids)
    ensures Split(Listed(ids), ',') == Prefixed(ids)
  {
    hide Split;
    var last := "GPU-" + ids[|ids| - 1];
    assert ROCR == "ROCR_VISIBLE_DEVICES=" + "GPU-";
    assert ',' !in last;
    if |ids| == 1 {
      FirstListed(ids[0]);
      assert Prefixed(ids) == ["GPU-" + ids[0]];
    } else {
      MaskRoundTrip(ids[..|ids| - 1]);
      ListedOneMore(ids);
      AppendListed(Listed(ids[..|ids| - 1]), last);
    }
  }

  lemma FirstListed(id: string)
    requires ',' !in id
    ensures Split("GPU-" + id, ',') == ["GPU-" + id]
  {
    SplitWord("", "GPU-" + id, ',');
    assert "" + ("GPU-" + id) == "GPU-" + id;
  }

  ghost predicate IsAmd(own: seq<Allocation>, inv: map<string, ProbeDevice>, i: nat) {
    i < |own| && own[i].device in inv && inv[own[i].device].driver == "amdgpu"
  }

  /** The same entries with variable `env` appended to those at the given indices. */
  ghost predicate Masked(before: seq<CdiDevice>, after: seq<CdiDevice>, indices: set<nat>, env: string) {
    && |after| == |before|
    && forall i: nat :: i < |before| ==>
         after[i] == before[i].(env := before[i].env + (if i in indices then [env] else []))
  }

  /** Either no device carries a mask, or exactly the claim's amdgpu devices do, all
      of them the same one. */
  ghost predicate UniformMask(own: seq<Allocation>, inv: map<string, ProbeDevice>, spec: seq<CdiDevice>) {
    || (forall i, k :: 0 <= i < |spec| && 0 <= k < |spec[i].env| ==> !IsMask(spec[i].env[k]))
    || (exists env :: IsMask(env) &&
          forall i: nat :: i < |spec| ==>
            ((exists k :: 0 <= k < |spec[i].env| && spec[i].env[k] == env) <==> IsAmd(own, inv, i)) &&
            (forall k :: 0 <= k < |spec[i].env| && IsMask(spec[i].env[k]) ==> spec[i].env[k] == env))
  }

  lemma MaskedIsUniform(uid: string, own: seq<Allocation>, inv: map<string, ProbeDevice>,
                        before: seq<CdiDevice>, after: seq<CdiDevice>, indices: set<nat>, env: string)
    requires Plain(uid, own, inv, before) && Masked(before, after, indices, env) && IsMask(env)
    requires indices == {} || forall i: nat :: i in indices <==> IsAmd(own, inv, i)
    ensures UniformMask(own, inv, after)
    ensures |after| == |before| && AllNodes(after) == AllNodes(before)
    ensures forall i :: 0 <= i < |after| ==> after[i].name == before[i].name
  {
    hide EditsFor, IsMask, NeededNodes;
    forall i: nat | i < |before|
      ensures forall k :: 0 <= k < |before[i].env| ==> !IsMask(before[i].env[k])
    {
      EditsCarryNoMask(inv[own[i].device]);
    }
    SameNodes(before, after);
    if indices != {} {
      forall i: nat | i < |after|
        ensures (exists k :: 0 <= k < |after[i].env| && after[i].env[k] == env) <==> IsAmd(own, inv, i)
        ensures forall k :: 0 <= k < |after[i].env| && IsMask(after[i].env[k]) ==> after[i].env[k] == env
      {
        if i in indices {
          assert after[i].env[|before[i].env|] == env;
        }
      }
    }
  }

  lemma {:induction false} SameNodes(a: seq<CdiDevice>, c: seq<CdiDevice>)
    requires |a| == |c| && forall i :: 0 <= i < |a| ==> a[i].nodes == c[i].nodes
    ensures AllNodes(a) == AllNodes(c)
  {
    if a != [] {
      SameNodes(a[..|a| - 1], c[..|c| - 1]);
    }
  }

  // ---- The inventory --------------------------------------------------------------------------------

  /** Device `m` is the last one of that name. */
  ghost predicate LastOfName(ds: seq<ProbeDevice>, n: nat, m: nat, name: string)
    requires n <= |ds|
  {
    m < n && Name(ds[m]) == name && forall k :: m < k < n ==> Name(ds[k]) != name
  }

  ghost predicate Snapshots(ds: seq<ProbeDevice>, n: nat, devices: map<string, ProbeDevice>)
    requires n <= |ds|
  {
    && (forall m :: 0 <= m < n ==> Name(ds[m]) in devices)
    && (forall name :: name in devices ==> exists m: nat :: LastOfName(ds, n, m, name) && devices[name] == ds[m])
  }

  /** The probe snapshot shared between the re-probe loop and prepare calls. */
  class Inventory {
    var devices: map<string, ProbeDevice>

    constructor ()
      ensures devices == map[]
    {
      devices := map[];
    }

    /** Swaps in a whole new snapshot: the last device of each name wins. */
    method Set(ds: seq<ProbeDevice>)
      modifies this
      ensures Snapshots(ds, |ds|, devices)
      ensures devices.Keys == Publisher.ProbedNames(ds)
    {
      hide Name;
      var m: map<string, ProbeDevice> := map[];
      for n := 0 to |ds|
        invariant Snapshots(ds, n, m)
      {
        SnapshotOneMore(ds, n, m);
        m := m[Name(ds[n]) := ds[n]];
      }
      devices := m;
      SnapshotNames(ds, m);
    }

    method DriverCount(driver: string) returns (n: nat)
      ensures n == |OfDriver(devices, driver)|
    {
      n := 0;
      var todo := devices.Keys;
      while todo != {}
        invariant todo <= devices.Keys
        invariant n == |set name | name in devices.Keys - todo && devices[name].driver == driver|
        decreases todo
      {
        var name :| name in todo;
        ghost var done := set x | x in devices.Keys - todo && devices[x].driver == driver;
        todo := todo - {name};
        assert (set x | x in devices.Keys - todo && devices[x].driver == driver) ==
               done + (if devices[name].driver == driver then {name} else {});
        if devices[name].driver == driver {
          n := n + 1;
        }
      }
      assert OfDriver(devices, driver) == set name | name in devices.Keys - todo && devices[name].driver == driver;
    }
  }

  function OfDriver(devices: map<string, ProbeDevice>, driver: string): set<string> {
    set name | name in devices && devices[name].driver == driver
  }

  lemma SnapshotOneMore(ds: seq<ProbeDevice>, n: nat, m: map<string, ProbeDevice>)
    requires n < |ds| && Snapshots(ds, n, m)
    ensures Snapshots(ds, n + 1, m[Name(ds[n]) := ds[n]])
  {
    hide Name;
    var mine := Name(ds[n]);
    var after, next := m[mine := ds[n]], n + 1;
    forall name | name in after
      ensures exists k: nat :: LastOfName(ds, next, k, name) && after[name] == ds[k]
    {
      if name == mine {
        LastIsNow(ds, n);
      } else {
        var k: nat :| LastOfName(ds, n, k, name) && m[name] == ds[k];
        LastStays(ds, n, k, name);
      }
    }
  }

  lemma LastIsNow(ds: seq<ProbeDevice>, n: nat)
    requires n < |ds|
    ensures LastOfName(ds, n + 1, n, Name(ds[n]))
  {
    hide Name;
  }

  lemma LastStays(ds: seq<ProbeDevice>, n: nat, k: nat, name: string)
    requires n < |ds| && LastOfName(ds, n, k, name) && name != Name(ds[n])
    ensures LastOfName(ds, n + 1, k, name)
  {
    hide Name;
  }

  lemma SnapshotNames(ds: seq<ProbeDevice>, m: map<string, ProbeDevice>)
    requires Snapshots(ds, |ds|, m)
    ensures m.Keys == Publisher.ProbedNames(ds)
  {
    forall name | name in m.Keys
      ensures name in Publisher.ProbedNames(ds)
    {
      var k: nat :| LastOfName(ds, |ds|, k, name) && m[name] == ds[k];
      assert ds[k] in ds;
    }
  }

  /** Against the snapshot the devices were published from, no allocation of a
      published device is ever missing. */
  lemma PublishedDevicesArePresent(ds: seq<ProbeDevice>, devices: map<string, ProbeDevice>, out: seq<Device>, own: seq<Allocation>)
    requires Snapshots(ds, |ds|, devices) && Publisher.PublishedNames(out) == Publisher.ProbedNames(ds)
    requires forall i :: 0 <= i < |own| ==> own[i].device in Publisher.PublishedNames(out)
    ensures AllKnown(own, devices)
  {
    SnapshotNames(ds, devices);
  }

  /** With names that differ, the inventory holds under each
      published name the very device that was published under it. */
  lemma DistinctNamesSameRecord(ds: seq<ProbeDevice>, devices: map<string, ProbeDevice>, k: nat)
    requires Snapshots(ds, |ds|, devices) && Publisher.FirstOfName(ds, k)
    requires forall i, j :: 0 <= i < j < |ds| ==> Name(ds[i]) != Name(ds[j])
    ensures Name(ds[k]) in devices && devices[Name(ds[k])] == ds[k]
  {
    hide Name;
    var m: nat :| LastOfName(ds, |ds|, m, Name(ds[k])) && devices[Name(ds[k])] == ds[m];
    assert m == k;
  }

  // ---- The spec store over a plugin's life ---------------------------------------------------------------

  /** Operations that took effect. */
  datatype Op = DidPrepare(uid: string) | DidUnprepare(uid: string) | DidCollect(uid: string)

  /** The claims that have a spec after these operations. */
  ghost function Replay(log: seq<Op>): set<string> {
    if log == [] then {}
    else
      var before, last := Replay(log[..|log| - 1]), log[|log| - 1];
      if last.DidPrepare? then before + {last.uid} else before - {last.uid}
  }

  ghost predicate LastOn(log: seq<Op>, uid: string, k: nat) {
    k < |log| && log[k].uid == uid && forall m :: k < m < |log| ==> log[m].uid != uid
  }

  /** A claim has a spec exactly when the last operation on it was a prepare. */
  lemma {:induction false} SpecIffLastWasPrepare(log: seq<Op>, uid: string)
    ensures uid in Replay(log) <==> exists k: nat :: LastOn(log, uid, k) && log[k].DidPrepare?
  {
    if log != [] {
      var init, n := log[..|log| - 1], |log| - 1;
      SpecIffLastWasPrepare(init, uid);
      if log[n].uid == uid {
        assert LastOn(log, uid, n);
      } else {
        assert forall k: nat :: LastOn(log, uid, k) <==> LastOn(init, uid, k);
        assert forall k: nat :: k < n ==> log[k] == init[k];
      }
    }
  }

  lemma ReplayOneMore(log: seq<Op>, op: Op)
    ensures Replay(log + [op]) == if op.DidPrepare? then Replay(log) + {op.uid} else Replay(log) - {op.uid}
  {
    assert (log + [op])[..|log|] == log;
  }

  datatype Reason = NoAllocation | DeviceMissing | ForeignOnly | CdiWrite

  datatype PreparedDevice = PreparedDevice(request: string, pool: string, device: string, cdiID: string)

  datatype PrepareResult = Prepared(devices: seq<PreparedDevice>) | Refused(reason: Reason)

  /** The ID handed back to the kubelet. */
  function QualifiedName(name: string): string {
    "llmfit.ai/device=" + name
  }

  /** The kubelet is told, per allocated device, the ID of its entry in the spec. */
  ghost predicate Answers(own: seq<Allocation>, spec: seq<CdiDevice>, devices: seq<PreparedDevice>) {
    && |devices| == |own| == |spec|
    && forall i :: 0 <= i < |own| ==>
         devices[i] == PreparedDevice(own[i].request, own[i].pool, own[i].device, "llmfit.ai/device=" + spec[i].name)
  }

  /** A finished spec: every needed node exactly once, masks uniform. */
  ghost predicate Usable(uid: string, own: seq<Allocation>, inv: map<string, ProbeDevice>, spec: seq<CdiDevice>) {
    && AllKnown(own, inv) && |spec| == |own|
    && (forall i :: 0 <= i < |own| ==> spec[i].name == uid + "-" + own[i].device)
    && Sorting.Distinct(AllNodes(spec))
    && SetOf(AllNodes(spec)) == NeededNodes(own, inv)
    && UniformMask(own, inv, spec)
    && (HasMask(spec) <==> NeedsMask(own, inv))
    && (exists mask :: NamesGPUs(own, inv, mask) && Environments(own, inv, spec, mask))
  }

  /** The mask lists the unique IDs of the claim's amdgpu devices, in order. */
  ghost predicate NamesGPUs(own: seq<Allocation>, inv: map<string, ProbeDevice>, mask: string) {
    exists amdgpu, ids :: IsAmdIndex(own, inv, amdgpu, ids) && mask == ROCR + Join(ids, ",GPU-")
  }

  /** Every entry carries its device's variables, and the mask where one is needed. */
  ghost predicate Environments(own: seq<Allocation>, inv: map<string, ProbeDevice>, spec: seq<CdiDevice>, mask: string) {
    && AllKnown(own, inv) && |spec| == |own|
    && forall i: nat :: i < |own| ==>
         spec[i].env == EditsFor(inv[own[i].device]).env + (if NeedsMask(own, inv) && IsAmd(own, inv, i) then [mask] else [])
  }

  /** A finished spec opens exactly what some device of the claim needs, each node once:
      render and device nodes of its own devices, the ROCm control node if one of them
      is on amdgpu, the connection manager if one is a NIC with verbs; nothing else. */
  lemma UsableReachesDevices(uid: string, own: seq<Allocation>, inv: map<string, ProbeDevice>, spec: seq<CdiDevice>, n: string)
    requires Usable(uid, own, inv, spec)
    ensures multiset(AllNodes(spec))[n] == if exists i :: 0 <= i < |own| && Opens(inv[own[i].device], n) then 1 else 0
  {
    hide UniformMask, HasMask, NeedsMask, AllNodes, EditsFor, Opens, NamesGPUs, Environments;
    var nodes := AllNodes(spec);
    Sorting.DistinctCounts(nodes);
    assert n in multiset(nodes) <==> n in nodes;
    assert n in nodes <==> n in SetOf(nodes);
    forall i | 0 <= i < |own|
      ensures n in EditsFor(inv[own[i].device]).nodes <==> Opens(inv[own[i].device], n)
    {
      NodesExactly(inv[own[i].device], n);
    }
    if n in NeededNodes(own, inv) {
      var i :| 0 <= i < |own| && n in EditsFor(inv[own[i].device]).nodes;
      assert Opens(inv[own[i].device], n);
    }
  }

  /** The history goes on, by collections of claims that no longer live and nothing else. */
  ghost predicate CollectedSince(before: seq<Op>, after: seq<Op>, live: set<string>) {
    && |before| <= |after| && after[..|before|] == before
    && forall i :: |before| <= i < |after| ==> after[i].DidCollect? && after[i].uid !in live
  }

  class Plugin {
    const inv: Inventory
    var specs: map<string, seq<CdiDevice>>
    ghost var log: seq<Op>

    ghost predicate Valid()
      reads this
    {
      specs.Keys == Replay(log)
    }

    /** A restarted plugin finds the specs its predecessors left. */
    constructor (inv: Inventory, found: map<string, seq<CdiDevice>>, ghost past: seq<Op>)
      requires found.Keys == Replay(past)
      ensures Valid() && this.inv == inv && specs == found && log == past
    {
      this.inv, this.specs, this.log := inv, found, past;
    }

    /** Scopes ROCm compute to the claim's own GPUs on multi-GPU AMD nodes. */
    method AddROCmVisibility(before: seq<CdiDevice>, amdgpu: seq<nat>, ids: seq<string>) returns (after: seq<CdiDevice>)
      requires forall k :: 0 <= k < |amdgpu| ==> amdgpu[k] < |before|
      requires forall j, k :: 0 <= j < k < |amdgpu| ==> amdgpu[j] != amdgpu[k]
      ensures var isolate := amdgpu != [] && |OfDriver(inv.devices, "amdgpu")| > 1 && "" !in ids;
              Masked(before, after, if isolate then (set i | i in amdgpu) else {}, ROCR + Join(ids, ",GPU-"))
    {
      after := before;
      var count := inv.DriverCount("amdgpu");
      if amdgpu == [] || count <= 1 {
        return;
      }
      for k := 0 to |ids|
        invariant "" !in ids[..k]
      {
        assert ids[..k + 1] == ids[..k] + [ids[k]];
        if ids[k] == "" {
          return;
        }
      }
      assert ids[..|ids|] == ids;
      var env := ROCR + Join(ids, ",GPU-");
      for k := 0 to |amdgpu|
        invariant Masked(before, after, (set i | i in amdgpu[..k]), env)
      {
        var i := amdgpu[k];
        assert amdgpu[..k + 1] == amdgpu[..k] + [i];
        assert i !in amdgpu[..k];
        after := after[i := after[i].(env := after[i].env + [env])];
      }
      assert amdgpu[..|amdgpu|] == amdgpu;
    }

    /** Collects the claim's devices: entries, prepared answers, and the amdgpu ones. */
    method Collect(claim: ResourceClaim)
      returns (missing: bool, cdi: seq<CdiDevice>, prepared: seq<PreparedDevice>, amdgpu: seq<nat>, ids: seq<string>)
      requires claim.allocation.Some?
      ensures missing <==> !AllKnown(Own(claim.allocation.value), inv.devices)
      ensures !missing ==> Plain(claim.uid, Own(claim.allocation.value), inv.devices, cdi)
      ensures !missing ==> Answers(Own(claim.allocation.value), cdi, prepared)
      ensures !missing ==> IsAmdIndex(Own(claim.allocation.value), inv.devices, amdgpu, ids)
    {
      hide EditsFor, NewNodes, IsAmdIndex, AllNodes, NeededNodes, SetOf, Join;
      var results := claim.allocation.value;
      missing, cdi, prepared, amdgpu, ids := false, [], [], [], [];
      var seen: set<string> := {};
      ghost var own: seq<Allocation> := [];
      NoAmdYet(inv.devices);
      PlainFromNothing(claim.uid, inv.devices);
      for j := 0 to |results|
        invariant own == Own(results[..j])
        invariant Plain(claim.uid, own, inv.devices, cdi)
        invariant seen == NeededNodes(own, inv.devices)
        invariant Answers(own, cdi, prepared)
        invariant IsAmdIndex(own, inv.devices, amdgpu, ids)
      {
        OwnOneMore(results, j);
        var alloc := results[j];
        if alloc.driver != LLMFIT_DOMAIN {
          continue; // not ours
        }
        if alloc.device !in inv.devices {
          OwnMembers(results);
          assert alloc in Own(results);
          missing := true;
          return;
        }
        var dev := inv.devices[alloc.device];
        var name := claim.uid + "-" + alloc.device;
        var edits := EditsFor(dev);
        var nodes := new string[|edits.nodes|](i requires 0 <= i < |edits.nodes| => edits.nodes[i]);
        assert nodes[..] == edits.nodes;
        var n, seenAfter := DedupeNodes(nodes, seen);
        PlainOneMore(claim.uid, own, inv.devices, cdi, alloc);
        AmdOneMore(own, inv.devices, amdgpu, ids, alloc);
        cdi := cdi + [CdiDevice(name, edits.env, nodes[..n])];
        if dev.driver == "amdgpu" {
          amdgpu := amdgpu + [|cdi| - 1];
          ids := ids + [dev.uniqueID];
        }
        prepared := prepared + [PreparedDevice(alloc.request, alloc.pool, alloc.device, QualifiedName(name))];
        own := own + [alloc];
        seen := seenAfter;
      }
      assert results[..|results|] == results;
    }

    /** Prepares one claim: on success its spec is stored, on any failure the store
        is untouched. `writeOK` is whether the spec file could be written. */
    method PrepareClaim(claim: ResourceClaim, writeOK: bool) returns (r: PrepareResult)
      requires Valid()
      modifies this
      ensures Valid() && inv.devices == old(inv.devices)
      ensures r.Refused? ==> specs == old(specs) && log == old(log)
      ensures r.Prepared? ==>
                && claim.allocation.Some?
                && claim.uid in specs && specs == old(specs)[claim.uid := specs[claim.uid]]
                && log == old(log) + [DidPrepare(claim.uid)]
                && Usable(claim.uid, Own(claim.allocation.value), inv.devices, specs[claim.uid])
                && Answers(Own(claim.allocation.value), specs[claim.uid], r.devices)
      ensures r == Refused(NoAllocation) <==> claim.allocation.None?
      ensures r == Refused(DeviceMissing) <==> claim.allocation.Some? && !AllKnown(Own(claim.allocation.value), inv.devices)
      ensures r == Refused(ForeignOnly) <==> claim.allocation.Some? && Own(claim.allocation.value) == []
      ensures r == Refused(CdiWrite) ==> !writeOK
      ensures r.Prepared? ==> writeOK
    {
      hide UniformMask, Masked, IsMask, EditsFor, HasMask, NeedsMask, NamesGPUs, Environments, AllNodes, NeededNodes;
      if claim.allocation.None? {
        return Refused(NoAllocation);
      }
      var missing, cdi, prepared, amdgpu, ids := Collect(claim);
      if missing {
        return Refused(DeviceMissing);
      }
      ghost var own := Own(claim.allocation.value);
      var spec := AddROCmVisibility(cdi, amdgpu, ids);
      Finish(claim.uid, own, inv.devices, cdi, spec, amdgpu, ids);
      if |prepared| == 0 {
        return Refused(ForeignOnly);
      }
      if !writeOK {
        return Refused(CdiWrite);
      }
      specs := specs[claim.uid := spec];
      ReplayOneMore(log, DidPrepare(claim.uid));
      log := log + [DidPrepare(claim.uid)];
      return Prepared(prepared);
    }

    /** Removes a claim's spec; already gone is success. */
    method Unprepare(uid: string, removeOK: bool) returns (ok: bool)
      requires Valid()
      modifies this
      ensures Valid()
      ensures ok <==> removeOK || uid !in old(specs)
      ensures specs == (if ok then old(specs) - {uid} else old(specs))
      ensures log == (if ok then old(log) + [DidUnprepare(uid)] else old(log))
    {
      if uid in specs && !removeOK {
        return false;
      }
      specs := specs - {uid};
      ReplayOneMore(log, DidUnprepare(uid));
      log := log + [DidUnprepare(uid)];
      return true;
    }

    /** Removes the specs of claims that no longer exist; `stuck` are the files that
        cannot be removed. */
    method GcOrphanedSpecs(live: set<string>, listOK: bool, stuck: set<string>)
      requires Valid()
      modifies this
      ensures Valid()
      ensures forall uid :: uid in live && uid in old(specs) ==> uid in specs
      ensures forall uid :: uid in specs ==> uid in old(specs) && specs[uid] == old(specs)[uid]
      ensures listOK ==> forall uid :: uid in specs ==> uid in live || uid in stuck
      ensures !listOK ==> specs == old(specs) && log == old(log)
      ensures CollectedSince(old(log), log, live)
    {
      if !listOK {
        return;
      }
      var todo := specs.Keys;
      while todo != {}
        invariant Valid()
        invariant todo <= specs.Keys
        invariant forall uid :: uid in live && uid in old(specs) ==> uid in specs
        invariant forall uid :: uid in specs ==> uid in old(specs) && specs[uid] == old(specs)[uid]
        invariant forall uid :: uid in specs ==> uid in todo || uid in live || uid in stuck
        invariant CollectedSince(old(log), log, live)
        decreases todo
      {
        var uid :| uid in todo;
        todo := todo - {uid};
        if uid !in live && uid !in stuck {
          specs := specs - {uid};
          ReplayOneMore(log, DidCollect(uid));
          log := log + [DidCollect(uid)];
        }
      }
    }
  }

  /** Exactly the positions of amdgpu devices, in order, with their unique IDs. */
  ghost predicate IsAmdIndex(own: seq<Allocation>, inv: map<string, ProbeDevice>, amdgpu: seq<nat>, ids: seq<string>) {
    && (forall i: nat :: i in amdgpu <==> IsAmd(own, inv, i))
    && (forall j, k :: 0 <= j < k < |amdgpu| ==> amdgpu[j] < amdgpu[k])
    && |ids| == |amdgpu|
    && forall k :: 0 <= k < |amdgpu| ==> amdgpu[k] < |own| && own[amdgpu[k]].device in inv && ids[k] == inv[own[amdgpu[k]].device].uniqueID
  }

  lemma NoAmdYet(inv: map<string, ProbeDevice>)
    ensures IsAmdIndex([], inv, [], [])
  {
  }

  lemma AmdOneMore(own: seq<Allocation>, inv: map<string, ProbeDevice>, amdgpu: seq<nat>, ids: seq<string>, r: Allocation)
    requires IsAmdIndex(own, inv, amdgpu, ids) && r.device in inv
    ensures inv[r.device].driver == "amdgpu" ==> IsAmdIndex(own + [r], inv, amdgpu + [|own|], ids + [inv[r.device].uniqueID])
    ensures inv[r.device].driver != "amdgpu" ==> IsAmdIndex(own + [r], inv, amdgpu, ids)
  {
    var more := own + [r];
    assert forall i :: 0 <= i < |own| ==> more[i] == own[i];
    assert forall i: nat :: IsAmd(more, inv, i) <==> IsAmd(own, inv, i) || (i == |own| && inv[r.device].driver == "amdgpu");
    assert |own| !in amdgpu;
    assert forall i: nat :: i in amdgpu + [|own|] <==> i in amdgpu || i == |own|;
  }

  /** The claim's GPUs share a node with other AMD GPUs and all expose an ID. */
  ghost predicate NeedsMask(own: seq<Allocation>, inv: map<string, ProbeDevice>) {
    && (exists i: nat :: IsAmd(own, inv, i))
    && |OfDriver(inv, "amdgpu")| > 1
    && forall i: nat :: IsAmd(own, inv, i) ==> inv[own[i].device].uniqueID != ""
  }

  ghost predicate HasMask(spec: seq<CdiDevice>) {
    exists i, k :: 0 <= i < |spec| && 0 <= k < |spec[i].env| && IsMask(spec[i].env[k])
  }

  lemma IsolateIffNeeded(own: seq<Allocation>, inv: map<string, ProbeDevice>, amdgpu: seq<nat>, ids: seq<string>)
    requires IsAmdIndex(own, inv, amdgpu, ids)
    ensures (amdgpu != [] && |OfDriver(inv, "amdgpu")| > 1 && "" !in ids) <==> NeedsMask(own, inv)
  {
    if amdgpu != [] {
      assert amdgpu[0] in amdgpu;
    }
    forall i: nat | IsAmd(own, inv, i)
      ensures inv[own[i].device].uniqueID in ids
    {
      assert i in amdgpu;
      var k :| 0 <= k < |amdgpu| && amdgpu[k] == i;
      assert ids[k] in ids;
    }
    forall id | id in ids
      ensures exists i: nat :: IsAmd(own, inv, i) && inv[own[i].device].uniqueID == id
    {
      var k :| 0 <= k < |ids| && ids[k] == id;
      assert amdgpu[k] in amdgpu;
    }
  }

  lemma Finish(uid: string, own: seq<Allocation>, inv: map<string, ProbeDevice>,
               cdi: seq<CdiDevice>, spec: seq<CdiDevice>, amdgpu: seq<nat>, ids: seq<string>)
    requires Plain(uid, own, inv, cdi) && IsAmdIndex(own, inv, amdgpu, ids)
    requires var isolate := amdgpu != [] && |OfDriver(inv, "amdgpu")| > 1 && "" !in ids;
             Masked(cdi, spec, if isolate then (set i | i in amdgpu) else {}, ROCR + Join(ids, ",GPU-"))
    ensures Usable(uid, own, inv, spec) && |spec| == |cdi|
    ensures forall i :: 0 <= i < |spec| ==> spec[i].name == cdi[i].name
  {
    hide EditsFor;
    var isolate := amdgpu != [] && |OfDriver(inv, "amdgpu")| > 1 && "" !in ids;
    var indices := if isolate then (set i | i in amdgpu) else {};
    var env := ROCR + Join(ids, ",GPU-");
    assert env[..4] == ROCR[..4] == "ROCR";
    MaskedIsUniform(uid, own, inv, cdi, spec, indices, env);
    IsolateIffNeeded(own, inv, amdgpu, ids);
    MaskIffIndexed(uid, own, inv, cdi, spec, indices, env);
    if isolate {
      assert amdgpu[0] in indices;
    }
    assert NamesGPUs(own, inv, env);
    MaskedEnvironments(uid, own, inv, cdi, spec, indices, env);
  }

  lemma MaskedEnvironments(uid: string, own: seq<Allocation>, inv: map<string, ProbeDevice>,
                           before: seq<CdiDevice>, after: seq<CdiDevice>, indices: set<nat>, env: string)
    requires Plain(uid, own, inv, before) && Masked(before, after, indices, env)
    requires if NeedsMask(own, inv) then forall i: nat :: i in indices <==> IsAmd(own, inv, i) else indices == {}
    ensures Environments(own, inv, after, env)
  {
    hide EditsFor, NeedsMask;
  }

  lemma MaskIffIndexed(uid: string, own: seq<Allocation>, inv: map<string, ProbeDevice>,
                       before: seq<CdiDevice>, after: seq<CdiDevice>, indices: set<nat>, env: string)
    requires Plain(uid, own, inv, before) && Masked(before, after, indices, env) && IsMask(env)
    ensures HasMask(after) <==> exists i :: i in indices && i < |before|
  {
    hide EditsFor, IsMask;
    forall i: nat | i < |before|
      ensures forall k :: 0 <= k < |before[i].env| ==> !IsMask(before[i].env[k])
    {
      EditsCarryNoMask(inv[own[i].device]);
    }
    if i :| i in indices && i < |before| {
      assert after[i].env[|before[i].env|] == env;
    }
  }

  // ---- Spec file names -------------------------------------------------------------------------------------

  const SPEC_PREFIX := "llmfit.ai-"
  const SPEC_SUFFIX := ".json"

  function SpecFile(uid: string): string {
    SPEC_PREFIX + uid + SPEC_SUFFIX
  }

  function TrimSuffix(s: string, suffix: string): string {
    if |suffix| <= |s| && s[|s| - |suffix|..] == suffix then s[..|s| - |suffix|] else s
  }

  function TrimPrefix(s: string, prefix: string): string {
    if prefix <= s then s[|prefix|..] else s
  }

  /** Listing the directory gives back exactly the UIDs that were written. */
  lemma SpecFileRoundTrip(uid: string)
    ensures SpecFile(uid) == "llmfit.ai-" + uid + ".json"
    ensures TrimPrefix(TrimSuffix(SpecFile(uid), SPEC_SUFFIX), SPEC_PREFIX) == uid
  {
    var f := SpecFile(uid);
    assert f == (SPEC_PREFIX + uid) + SPEC_SUFFIX;
    assert f[|f| - |SPEC_SUFFIX|..] == SPEC_SUFFIX;
    assert TrimSuffix(f, SPEC_SUFFIX) == SPEC_PREFIX + uid;
  }
}
