# llmfit-dra in Dafny

llmfit-dra turns "run model X at N tok/s" into a device predicate for Kubernetes
Dynamic Resource Allocation, predicts which published devices satisfy it, and
keeps API objects and node state in step. This project models its four cores and
proves what each of them promises, for all inputs, all clusters and all runs.

`dafny verify dfyconfig.toml` checks everything.

1. **The fit compiler and its mirror.** `FitCEL` and `NvidiaFitCEL` compile
   bounds into CEL; the scheduler evaluates that CEL, while the controller
   evaluates the same inequality by hand, in loops. The emitted expressions are
   ASTs (`Cel`), evaluated with CEL's three-valued logic: a runtime error is a
   value, `&&` and `||` absorb it from either side, a missing key is an error and
   an unknown domain an empty map (CEL Language Definition, sections "Logical
   Operators" and "Runtime Errors"). The compilers (`NvidiaFit`, `LlmfitFit`), the
   arithmetic that folds two floors into one threshold (`MigPhysics`,
   `MigGroups`, `Boards`) and the loops (`Satisfiable`, `NvidiaSatisfiable`) meet
   in one specification over sets of device slots (`Slots`, `Tally`), and
   `Agreement` states that the advisory count is the number of devices the
   selectors select.
2. **The ModelClaim reconciler.** `Controller.Reconcile` runs the source's
   branches over mutable template and status stores, the memoising cache
   (`ResolverCache`), the event memory and the drift test (`Templates`,
   `Conditions`). Its contract is the relation `ReconcileStep`; the run theorems
   in `Reconciler` hold of every sequence of such steps mixed with edits by
   others, claims that come and go, and time.
3. **The node-side join.** `Probe` walks, `Detector` carries capability across
   runs, `Publisher` pairs and publishes, `NodePlugin` prepares from the same
   names and keeps one CDI spec per claim.
4. **The hotplug debounce protocol.** `Hotplug` is the transition system of the
   reader, the debouncer, the bounded channels and the re-probe loop.

Conventions. Integers are mathematical and non-negative where the source's values
are; capacities are whole bytes; miss scores and gigabyte figures are reals; pool
generations are non-negative. A board table has an entry's key as its product name,
and the compiler theorems suppose that no product name is empty. The throughput
floor, a float64 in the source, is represented by the shortest decimal that denotes
it. Comparing a version attribute with a string yields false, as CEL's equality does
for values of different types. Maps are walked in an arbitrary order, and sorting is
any sorted permutation, so a result proved unique does not depend on either. What
the API server, the resolver, the transports, the kernel and the file system answer
are parameters. A predicate named `Is...` describes a result without computing it;
the method of the matching name is proved to produce such a result, and a
`...Unique` lemma that there is only one.

Findings.

- With a memory floor of zero the compiled expression and the advisory evaluation can
  part: the evaluation reads unpublished memory as 0, the expression rejects it.
  `NvidiaFit.NvidiaFitAgreesIff` gives the exact condition on table, bounds and class:
  they agree on every device if and only if no board is loose, that is, admitted
  whole at memory floor 0 or by a partition threshold of 0 MiB.
  `NvidiaFit.LooseBoardParts` gives, for each loose board, a device on which they part.
- One capacity threshold decides both floors on a board if and only if the board is
  separated: no partition that is short of slices reaches a midpoint that some
  bandwidth floor asks for (`MigPhysics.ThresholdDecidesIffSeparated`). Two MiB per
  memory slice suffice, which boards with thousands of MiB per slice have by far;
  below that some boards are separated and some are not
  (`MigPhysics.SmallBoardsVary`).
- The debouncer's delay is bounded by the offers made meanwhile and by nothing else:
  each buys it at most three steps (`Hotplug.OnlyOffersDefer`), and for every n some
  run makes n + 1 offers, never signals and still owes the wake-up
  (`Hotplug.StormDefersSignal`). A wake-up is never lost, only deferred.
- The names of one probe walk differ exactly when no compute class lists a function
  twice that is no fabric endpoint (`Probe.WalkNamesDiffer`).
- `FitCEL` guards against absent attributes, not against ill-typed ones:
  `LlmfitFit.FitCELValue` says exactly when it is a runtime error.
- The comment at cmd/llmfit-dra/main.go:208-212 names the pci subsystem among those
  that trigger a re-probe; the code at internal/hotplug/hotplug.go:23-29 excludes
  it. The model follows the code.

## Model

| member | source | states |
|---|---|---|
| MigPhysics.ThresholdDecidesBothFloors | internal/modelclaim/nvidia.go:35-63 | two floors collapse into one threshold: on every published MIG partition of a separated board, of any slice count and any tolerated capacity, the one capacity test decides exactly the memory floor together with the derived bandwidth floor j*B/S |
| MigPhysics.ThresholdExistsIffSomePartitionFits | internal/modelclaim/nvidia.go:35-39 | on every MIG-capable board, ok=false means exactly that no partition could ever satisfy the bounds |
| MigPhysics.EnoughSlicesReachMidpoint | internal/modelclaim/nvidia.go:22-26 | a partition with at least k slices publishes at or above the midpoint between k-1 and k, even when short of nominal by the tolerance |
| MigPhysics.TooFewSlicesMissMidpoint | internal/modelclaim/nvidia.go:22-26 | a partition with fewer than k slices stays strictly below that midpoint, given 2 MiB per slice |
| MigPhysics.ThresholdDecidesIffSeparated | internal/modelclaim/nvidia.go:46-57 | the exact condition: for all bounds and partitions the threshold decides both floors if and only if no partition short of slices reaches a midpoint that some bandwidth floor asks for |
| MigPhysics.RoomyBoardsAreSeparated | internal/modelclaim/nvidia.go:22-26 | a sufficient one: 2 MiB per memory slice |
| MigPhysics.SmallBoardsVary | internal/modelclaim/nvidia.go:54 | and not a necessary one: below that a board of eight 1 MiB slices fails the condition, one of two slices and 3 MiB meets it |
| MigPhysics.PartitionFeasibleIffBoardAdmits | internal/modelclaim/nvidia.go:69-97 | for MIG-capable boards with compute data, the pair of MIG thresholds is feasible exactly when the full-GPU test admits the board |
| MigPhysics.ThresholdMonotone | internal/modelclaim/nvidia.go:40-63 | raising either floor never lowers the capacity threshold and never makes an infeasible board feasible |
| MigPhysics.MinSMsMonotone | internal/modelclaim/nvidia.go:69-81 | the same for the multiprocessor floor |
| MigPhysics.MinSMsDecideCompute | internal/modelclaim/nvidia.go:65-81 | the multiprocessor threshold decides exactly the compute floor: it is met if and only if sms * computeTFLOPS >= floor * smCount on a board whose compute reaches the floor |
| Boards.Load | internal/index/nvidia.go:51-62 | every board is stamped with its key as product name, whatever the map order; nothing else changes |
| Boards.All | internal/index/nvidia.go:74-81 | lists exactly the table's boards, each once, in strictly ascending product-name order |
| Boards.AllIsUnique | internal/index/nvidia.go:71-81 | the listing is canonical: a function of the table's contents alone |
| MigGroups.GroupKeyInjective | internal/modelclaim/nvidia.go:120 | the string key "thr/minSMs" identifies the pair |
| MigGroups.ComputeMigGroups | internal/modelclaim/nvidia.go:109-140 | groups in strict (threshold, SMs) order, each listing in sorted order exactly the boards of its pair, none empty, no admissible board left out |
| MigGroups.GroupsPartitionAdmissible | internal/modelclaim/nvidia.go:99-112 | a board stands in a group exactly when it is admissible, and then in exactly one |
| MigGroups.GroupsAscend | internal/modelclaim/nvidia.go:131-139 | groups ascend by threshold, then by multiprocessors; products ascend within each |
| MigGroups.MigGroupsUnique | internal/modelclaim/nvidia.go:127-140 | the groups depend only on the table's contents, never on map iteration order |
| NvidiaFit.AdmittedBoards | internal/modelclaim/nvidia.go:182-190 | the sorted names of exactly the boards that fit whole |
| NvidiaFit.NvidiaFitCEL | internal/modelclaim/nvidia.go:156-209 | emits the guarded disjunction over the wanted branches, or false when nothing in the table can fit |
| NvidiaFit.NvidiaFitUnique | internal/modelclaim/nvidia.go:151-209 | same table and inputs, same expression: regeneration never flaps |
| NvidiaFit.NvidiaFitCorrect | internal/modelclaim/nvidia.go:156-209 | compiler correctness on every device of the driver, whatever attributes and capacities it lacks and whichever of the basic types (string, integer, boolean) those it has carry: never an error, and true exactly when the evaluation counts the device and it publishes memory |
| NvidiaFit.NvidiaFitAgreesWithEvaluation | internal/modelclaim/satisfiable_nvidia.go:51-105 | with a positive memory floor, expression and evaluation agree on every device |
| NvidiaFit.NvidiaFitAgreesIff | internal/modelclaim/satisfiable_nvidia.go:60-91 | for all bounds: expression and evaluation agree on every device if and only if no board of the table is admitted, by a wanted branch, without asking for memory |
| NvidiaFit.LooseBoardParts | internal/modelclaim/satisfiable_nvidia.go:60-91 | every such board, under any class and compute floor, has a device without memory that is counted and yet rejected by the expression |
| NvidiaFit.PartitionVerdict | internal/modelclaim/nvidia.go:35-97 | a partition of a separated board is admitted, and selected by the expression, if and only if its class wants partitions, its bytes reach the memory floor, its slices' share the bandwidth floor and its multiprocessors' share the compute floor, all in plain numbers |
| NvidiaFit.BoardVerdict | internal/modelclaim/nvidia.go:83-97 | the same for a full GPU, by bytes and by its board's memory, bandwidth and compute |
| NvidiaFit.PartitionNeverMissesFloors | internal/modelclaim/nvidia.go:160-180 | on any board, nothing is admitted or selected that misses the memory floor in bytes or the compute floor in shares |
| NvidiaFit.ClassesDivideDevices | internal/modelclaim/backend.go:37-50 | mig.nvidia.com admits partitions only, gpu.nvidia.com full GPUs only, any other class exactly what either admits |
| NvidiaFit.ForeignDriverNeverMatches | internal/modelclaim/nvidia.go:198-209 | on devices of any other driver the expression is false, never an error |
| NvidiaFit.AdmitsAntitone | internal/modelclaim/nvidia.go:40-97 | raising memory, bandwidth or compute floor never turns a reject into a candidate |
| LlmfitFit.FitCELCorrect | internal/modelclaim/template.go:41-68 | guard safety and correctness: on every device true exactly when all constraints are met, and never an error on well-typed devices, whatever they lack |
| LlmfitFit.FitCELValue | internal/modelclaim/template.go:41-68 | the value on every device: an error exactly when no constraint is plainly missed and some attribute the expression reads is ill-typed |
| LlmfitFit.ForeignDriverNeverMatches | deploy/deviceclass.yaml:20-66 | devices of any other driver are rejected by fit expression and shipped class selectors, never with an error |
| LlmfitFit.ClassCELCorrect | deploy/deviceclass.yaml:20-66 | the shipped class selectors never err on published devices and select exactly the eligible, healthy ones (health not asked of CPUs) |
| LlmfitFit.SelectorsMatchEvaluation | internal/modelclaim/satisfiable.go:127-187 | end to end: class selector and fit expression together select exactly the devices the evaluation counts, for llmfit.ai and its gpu, npu and cpu classes, and neither errs |
| LlmfitFit.CustomClassMatchesEvaluation | internal/modelclaim/satisfiable.go:67-78 | under a custom class the evaluation mirrors the fit expression alone |
| LlmfitFit.DeviceVerdict | internal/modelclaim/satisfiable.go:127-173 | the verdict in published numbers: kind and demotion by class name, memory in bytes, bandwidth except for CPUs, the opt-in compute floor, health |
| LlmfitFit.CpuClassWaivesOnlyBandwidth | internal/modelclaim/template.go:28-40 | the CPU class waives the bandwidth floor and nothing else; in particular never the compute floor |
| Cel.EvalAndAll | internal/modelclaim/template.go:22-26 | a guarded conjunction is false as soon as one conjunct is, wherever it stands and whatever the others raise |
| Agreement.NvidiaCountIsSelection | internal/modelclaim/satisfiable_nvidia.go:13-36 | over a whole cluster, the advisory count is the number of current devices the emitted expression selects, and it errs on no device of any driver |
| Agreement.LlmfitCountIsSelection | internal/modelclaim/satisfiable.go:80-187 | the same for the llmfit backend under each shipped class, without error on any published device and rejecting every device of another driver |
| Agreement.CustomClassCountIsSelection | internal/modelclaim/satisfiable.go:67-78 | under a custom class the count is the number of current devices the fit expression alone selects |
| Satisfiable.AllocatedDevices | internal/modelclaim/satisfiable.go:31-45 | holds exactly the driver's devices in some allocated claim, each under the last claim that uses it |
| Satisfiable.CurrentPoolGens | internal/modelclaim/satisfiable.go:52-63 | the recorded generations decide exactly which slices are of their pool's newest generation |
| Satisfiable.EvaluateSlices | internal/modelclaim/satisfiable.go:85-264 | the loop computes the set specification: counts, first holder, and a shortfall exactly when there is no candidate, naming the first reject of maximal score with exactly its failing constraints and the largest demoted device with the number of others |
| NvidiaSatisfiable.EvaluateNvidiaSlices | internal/modelclaim/satisfiable_nvidia.go:19-177 | the same for the NVIDIA loop, whose shortfall also lists exactly the unknown products |
| Slots.CountsAntitone | internal/modelclaim/satisfiable.go:150-187 | raising any floor never increases Devices, Nodes or Available, on either backend |
| Slots.PermutingSlicesKeepsCounts | internal/modelclaim/satisfiable.go:93-187 | the counts do not depend on the order in which slices arrive |
| Slots.SupersededSliceKeepsCounts | internal/modelclaim/satisfiable.go:47-63 | adding or removing a slice of a superseded pool generation changes no count |
| Slots.PermutingClaimsKeepsHeldKeys | internal/modelclaim/satisfiable.go:31-45 | nor does the order of claims change which devices are held |
| Slots.DeviceKeyInjective | internal/modelclaim/satisfiable.go:41 | for device names without a slash, "pool/device" identifies pool and device |
| Slots.HolderNameIdentifies | internal/modelclaim/satisfiable.go:41 | a holder's "namespace/name" identifies the claim |
| Slots.NodesAreNamed | internal/modelclaim/satisfiable.go:119-122 | the counted nodes are the distinct non-empty names of slices that carry a candidate |
| Slots.DerivedBandwidthIsShare | internal/modelclaim/satisfiable_nvidia.go:117-123 | the derived bandwidth is the device's memory share of its board's peak, rounded down; 0 without board memory |
| Slots.LlmfitReasons | internal/modelclaim/satisfiable.go:202-222 | the reasons given for a llmfit reject, in published numbers |
| Slots.NvidiaReasons | internal/modelclaim/satisfiable_nvidia.go:136-152 | the reasons given for an NVIDIA reject: an infeasible board and nothing else, or short memory, or multiprocessors whose share of the board's compute misses the floor |
| Slots.CandidateIffNothingFails | internal/modelclaim/satisfiable.go:150-226 | a judged device is a candidate exactly when no constraint fails; a reject always has a reason |
| Tally.QueuedNamesHolder | internal/modelclaim/satisfiable.go:173-187 | candidates that are all held always name a holder |
| Tally.MissHasReasons | internal/modelclaim/satisfiable.go:189-262 | a named nearest miss fails some constraint, and none is named only when nothing was rejected |
| Tally.FirstMaxUnique | internal/modelclaim/satisfiable.go:196-226 | the nearest miss is determined: one slot is the first of maximal score |
| Tally.ScoreOrder | internal/modelclaim/satisfiable.go:189-200 | the exact order of llmfit rejects, for all bounds: ten bandwidth floors per constraint met plus the bandwidth; constraints alone without a floor |
| Tally.NvidiaScoreOrder | internal/modelclaim/satisfiable_nvidia.go:117-128 | the exact order of NVIDIA rejects: by derived bandwidth, none closer than another without a floor |
| Tally.ScoreIsLexicographic | internal/modelclaim/satisfiable.go:189-200 | with a positive bandwidth floor and bandwidths below ten times it, the score orders by constraints met, then by bandwidth; both directions |
| Probe.NameIdentifies | pkg/probe/probe.go:120-131 | a device name identifies kind and PCI function (or index, where there is no address) |
| Probe.NameSpelled | pkg/probe/probe.go:120-131 | names are the kind, a dash and the dashed address, or the kind and the counter; letters, digits and dashes only |
| Probe.DropFabricFunctions | pkg/probe/probe.go:259-270 | the in-place filter keeps, in order, exactly the candidates that are no fabric endpoint |
| Probe.FabricIsNeverCompute | pkg/probe/probe.go:155-158 | a candidate counts as compute exactly when no RDMA device sits on its PCI function |
| Probe.DedupeFabric | pkg/probe/probe.go:277-330 | keeps the first RDMA entry of each function, numbered in order |
| Probe.FirstsNext | pkg/probe/probe.go:314-325 | an entry is kept exactly when no earlier one is on the same function or, without an address, in the same device directory |
| Probe.OneNicPerFunction | pkg/probe/probe.go:288-293 | every PCI function that registers RDMA entries yields exactly one NIC |
| Probe.Walk | pkg/probe/probe.go:159-200 | a sorted permutation of filtered GPUs, filtered NPUs, deduplicated NICs and the CPU |
| Probe.WalkLists | pkg/probe/probe.go:159-200 | a walk lists the CPU, every NIC and every accelerator on whose function no NIC sits, and nothing else |
| Probe.KindRankIsNameOrder | pkg/probe/probe.go:193-198 | kinds are ordered as their names are as strings |
| Probe.WalkIsDeterministic | pkg/probe/probe.go:150-153 | consecutive walks of unchanged hardware compare equal, although the sort is not stable |
| Probe.WalkNamesDiffer | pkg/probe/probe.go:159-200 | the names of a walk differ exactly when neither compute class lists a function twice that is no fabric endpoint |
| Detector.BackfillBandwidth | internal/llmfit/detector.go:100-118 | a missing bandwidth is taken from the last priced entry of that name in the previous reading; fresh positive values and everything else stay |
| Detector.BackfillKeepsPrice | internal/llmfit/detector.go:91-99 | a name priced before is priced in every entry of the next reading |
| Detector.BandwidthSurvives | internal/llmfit/detector.go:49-118 | over whole histories, a name served with a positive bandwidth, fresh or from the cache, is served with one by every later answer that lists it, as long as each fresh reading in between lists it |
| Detector.ServedBandwidthWasReported | internal/llmfit/detector.go:49-118 | no bandwidth is ever served, fresh or from the cache, that no transport reported for that name |
| Detector.CachedIsRecent | internal/llmfit/detector.go:76-84 | a cached answer is the latest fresh one and at most maxStale old |
| Detector.FailedMeansStale | internal/llmfit/detector.go:76-88 | a call fails only when the latest fresh reading is older than maxStale, or there is none |
| Detector.CapabilityDetector.Detect | internal/llmfit/detector.go:49-89 | serves the first transport that answers, else the cache within its bound, else fails, and extends the history by exactly that event |
| Publisher.MatchLLMFitGPU | internal/publisher/publisher.go:288-320 | finds the one attributable entry, and nothing exactly when none is: ambiguity, under-reporting and unclassifiable names pair with nothing |
| Publisher.PairingConserves | internal/publisher/publisher.go:278-320 | each entry is attributed to at most max(1, Count) cards, each card takes from at most one entry |
| Publisher.PairingRespectsVendors | internal/publisher/publisher.go:278-320 | never a card of another classifiable vendor; an unclassifiable pairing only with exactly one GPU on both sides |
| Publisher.PairingExact | internal/publisher/publisher.go:278-320 | exactly when a classifiable entry serves a card: same vendor, no second entry of it, no more probed cards of it than the entry counts |
| Publisher.VendorOfId | internal/publisher/publisher.go:361-387 | which PCI ids stand for each known vendor, and that no other id does |
| Publisher.BuildDevices | internal/publisher/publisher.go:64-276 | publishes every probed name exactly once, from the first device that carries it, in order, with the capability facts, health, demotion, memory and taint its sources determine |
| Publisher.PublishedAcceleratorIsHonest | internal/publisher/publisher.go:163-249 | every published GPU or NPU: memory is the paired budget, else on a unified device the larger of carve-out and pool, else exactly the probed amount and nothing when none was probed; bandwidth the paired one, else the index's; compute the index's; source and shared memory told accordingly |
| Publisher.HostDevices | internal/publisher/publisher.go:95-144 | a CPU carries llmfit's memory or the probed one, shared, and no speed; a NIC neither memory nor speed |
| Publisher.IdentityAndHealth | internal/publisher/publisher.go:84-91 | kind, health, taint and demotion of every published device, from its driver, errors, port and node and the options |
| Publisher.UnpricedCardNeverFits | internal/publisher/publisher.go:169-215 | a card that neither its paired entry nor the index prices is admitted by no class, whatever the floors |
| Publisher.NicNeverAdmitted | internal/publisher/publisher.go:95-125 | no bounds, class or floor admits a NIC, and the fit expression is false on it |
| Publisher.DefaultClassGpuIsPreparable | internal/publisher/publisher.go:219-231 | a GPU admitted through a default class is bound to a preparable driver, has no uncorrectable errors and is on a node no vendor driver owns |
| NodePlugin.Inventory.Set | internal/nodeplugin/plugin.go:47-55 | the snapshot holds exactly the probed names, each with its last device |
| NodePlugin.Inventory.DriverCount | internal/nodeplugin/plugin.go:66-76 | counts the inventory's devices of a driver |
| NodePlugin.PublishedDevicesArePresent | internal/nodeplugin/plugin.go:148-157 | an allocation of published devices never hits device_missing against the same snapshot |
| NodePlugin.DistinctNamesSameRecord | internal/nodeplugin/plugin.go:47-62 | with distinct names, the inventory's record under a published name is the very device that was published |
| NodePlugin.NewNodesMeaning | internal/nodeplugin/plugin.go:159-167 | the filter yields exactly the unseen nodes, each once |
| NodePlugin.DedupeNodes | internal/nodeplugin/plugin.go:159-167 | the in-place slice filter computes it and extends the seen set by all nodes |
| NodePlugin.Plugin.Collect | internal/nodeplugin/plugin.go:140-179 | missing exactly when an own device is unknown; otherwise one entry per own device and every needed node exactly once over the whole claim |
| NodePlugin.Plugin.AddROCmVisibility | internal/nodeplugin/plugin.go:202-217 | appends one mask naming all of the claim's GPUs to exactly its amdgpu entries, or changes nothing |
| NodePlugin.MaskedIsUniform | internal/nodeplugin/plugin.go:191-217 | the variable is on all amdgpu devices of the claim with one value, or on none |
| NodePlugin.MaskRoundTrip | internal/nodeplugin/plugin.go:213 | read back and split at its commas, the mask names every listed GPU in order and no other |
| NodePlugin.OwnCounts | internal/nodeplugin/plugin.go:148-151 | exactly this driver's allocation results are prepared, with their multiplicity |
| NodePlugin.EnvironmentExactly | internal/nodeplugin/plugin.go:229-264 | the variables of a device: name, kind, the node to open under its own name, render node and interface where it has them, nothing else |
| NodePlugin.UsableReachesDevices | internal/nodeplugin/plugin.go:228-266 | a finished spec opens, each once, exactly the render and device nodes of the claim's own devices, /dev/kfd if one is on amdgpu and rdma_cm if one is a NIC with verbs; nothing else |
| NodePlugin.Plugin.PrepareClaim | internal/nodeplugin/plugin.go:136-189 | success stores a usable spec (nodes, variables and mask determined) and answers with its IDs; each refusal happens in exactly its case and leaves the store untouched |
| NodePlugin.Plugin.Unprepare | internal/nodeplugin/plugin.go:318-331 | removes that claim's spec only; already gone is success |
| NodePlugin.Plugin.GcOrphanedSpecs | internal/nodeplugin/plugin.go:288-313 | removes only specs without a live claim, and all of them that can be removed; the history is extended by such collections and nothing else |
| NodePlugin.SpecIffLastWasPrepare | internal/nodeplugin/cdi.go:57-100 | over any life of the plugin, a claim has a spec exactly when the last effective operation on it was a prepare |
| NodePlugin.SpecFileRoundTrip | internal/nodeplugin/cdi.go:103-114 | listing the directory gives back the UIDs that were written |
| Templates.LabelValue | internal/modelclaim/template.go:156-162 | the name itself when it fits 63 characters, else its first 63 without exactly their trailing punctuation |
| Templates.BuildTemplate | internal/modelclaim/template.go:76-124 | renders a desired template: compiled expression first, then the claim's non-blank extra selectors, controlled by the claim |
| Templates.DesiredSays | internal/modelclaim/template.go:76-150 | from the fields of claim, bounds and table: owner, the one request, the expression for exactly this class and compute floor by the compiler the claim asks for, the user's selectors, and every annotation |
| Templates.ExtrasAppend | internal/modelclaim/template.go:86-92 | extra selectors are treated one by one, in order |
| Templates.ExtrasOne | internal/modelclaim/template.go:86-92 | a blank one is dropped, any other kept without exactly the white space around it |
| Templates.DesiredUnique | internal/modelclaim/template.go:126-142 | claim, bounds and board table determine the desired template |
| Templates.TemplateNeedsUpdate | internal/modelclaim/template.go:166-203 | true exactly when class, selectors, request names or a desired annotation differ |
| Templates.AgreesExactly | internal/modelclaim/template.go:166-203 | agreement is equality of the requests but for server defaults and of every desired annotation |
| Templates.MergeInto | internal/modelclaim/controller.go:383-390 | desired spec and annotations over the live object, all else of it kept |
| Templates.WrittenAgrees | internal/modelclaim/controller.go:383-409 | a created or merged template agrees with the desired one however the server defaults the ignored fields |
| ResolverCache.ModelRefIsPlain | internal/modelclaim/controller.go:53 | a valid model reference is non-empty, no flag, and holds no '\|' |
| ResolverCache.ModelRefExactly | internal/modelclaim/controller.go:50-53 | a valid reference, character by character |
| Text.FormatDecimalInjective | internal/modelclaim/controller.go:482 | different throughput floors never print alike |
| ResolverCache.KeyInjective | internal/modelclaim/controller.go:480-482 | the cache key identifies model, throughput floor, quantisation and efficiency, although the quantisation may hold the separator |
| ResolverCache.Cache.Lookup | internal/modelclaim/controller.go:485-491 | a hit is what the resolver said of this very tuple less than ten minutes ago |
| ResolverCache.Cache.Store | internal/modelclaim/controller.go:501-508 | adds that one entry, drops the others only at 512, never exceeds 512 |
| ResolverCache.Cache.Resolve | internal/modelclaim/controller.go:477-510 | asks the resolver exactly when no live entry is held; every answer is the resolver's for this tuple within the time limit; failures leave the cache untouched |
| ResolverCache.Recorder.Emit | internal/modelclaim/controller.go:557-571 | suppresses exactly the remembered repeat; a repeat passes only after the bounded memory was dropped |
| Conditions.SetCondition | internal/modelclaim/controller.go:583-593 | upserts one kind, moves the transition time only when the status changes, keeps kinds unique and other kinds as they were |
| Conditions.SatisfiableCondition | internal/modelclaim/controller.go:450-466 | True exactly when there is a candidate; AllDevicesHeld exactly when there are candidates and none is free |
| Conditions.MarkFailed | internal/modelclaim/controller.go:326-352 | both verdicts withdrawn for the reason at this generation, the rest of the status untouched |
| Conditions.MarkResolved | internal/modelclaim/controller.go:425-444 | records bounds, template, counts and both verdicts consistently |
| Reconciler.Controller.UpdateTemplate | internal/modelclaim/controller.go:383-409 | drift ends in an agreeing controlled template, by update or by delete and recreate; a failure leaves the old template or none |
| Reconciler.Controller.ReconcileTemplate | internal/modelclaim/controller.go:355-409 | conflict exactly on a foreign template, which stays; no write when nothing drifted; otherwise an agreeing controlled template |
| Reconciler.Controller.Evaluate | internal/modelclaim/controller.go:512-529 | the counts of the backend the claim targets, over that driver's slices and held devices |
| Reconciler.Controller.Apply | internal/modelclaim/controller.go:355-445 | after resolution: template move, verdict and counts, in one relation between old and new world |
| Reconciler.Controller.Reconcile | internal/modelclaim/controller.go:289-446 | one reconcile: invalid references never reach the resolver; at most one call is added, with the spec's own model, quantisation, throughput floor (20 when none) and efficiency (0 when none), and the bounds used are what the resolver said to such a call; events are added for this claim only, and the world moves by ReconcileStep |
| Reconciler.RestartAndReconcile | internal/modelclaim/controller.go:95-105 | a restarted controller, cache and event memory empty, moves whatever world it finds by the same relation, with what the resolver says now |
| Reconciler.CountIsWhatTheTemplateSelects | internal/modelclaim/controller.go:411-428 | the recorded count is the number of devices that the generated selector in the claim's live template selects |
| Reconciler.ReconcileConverges | internal/modelclaim/controller.go:355-409 | convergence over runs: after one reconcile without a failing call, from whatever state (template deleted but not recreated included), the template is settled in every later world and no repeat writes it |
| Reconciler.SettledStaysQuiet | internal/modelclaim/controller.go:383-409 | once settled, any further run of reconciles under the same bounds makes no template write, whatever fails meanwhile |
| Reconciler.ForeignTemplateSurvives | internal/modelclaim/controller.go:373-382 | over whole runs, no reconcile updates, adopts or deletes a template its claim does not control |
| Reconciler.FailuresLeaveTemplate | internal/modelclaim/controller.go:326-382 | over any run in which a claim only ends in InvalidModel, ResolveFailed or TemplateConflict, the template of its name stays as it was, present or absent, whatever other claims do |
| Reconciler.StatusesStayCoherent | internal/modelclaim/controller.go:411-466 | in every reachable state each condition occurs once, Resolved is True exactly when Satisfiable is not Unknown, and a standing verdict is True exactly when the recorded count is positive |
| Hotplug.NoLostWakeup | internal/hotplug/hotplug.go:109-184 | in every interleaving, while a wake-up is owed it is under way; and every signal has consumed an event of its own |
| Hotplug.WakeupIsCarried | internal/hotplug/hotplug.go:112-184 | on the steps alone: from the reading of a drm or accel event, or of an overrun, until the next re-probe the wake-up is with the reader, the queue, the debouncer or the signal |
| Hotplug.ReadsDo | internal/hotplug/hotplug.go:117-148 | what each read does: interrupted reads and other messages change nothing, accelerator events and overruns are offered, anything else ends the reader |
| Hotplug.OnlyOffersDefer | internal/hotplug/hotplug.go:160-183 | in every interleaving the debouncer takes at most Rank steps plus three per offer: only further offers can defer the signal |
| Hotplug.RestMeansSignalled | internal/hotplug/hotplug.go:112-184 | where the debouncer comes to rest, a wake-up still owed is in the reader's hand or in the signal slot |
| Hotplug.StoppedReaderForcesSignal | internal/hotplug/hotplug.go:112-184 | once the reader stops, queue length and phase bound the debouncer's steps, and where it comes to rest the pending burst has been signalled before the channel closed |
| Hotplug.NeverStuck | internal/hotplug/hotplug.go:160-183 | the debouncer has a step exactly unless it has ended or waits on an empty open queue; once the reader has stopped, unless it has ended |
| Hotplug.ClosedOnlyAfterSignal | cmd/llmfit-dra/main.go:223-240 | the loop sees the closed channel only when nothing is owed any more |
| Hotplug.StormDefersSignal | internal/hotplug/hotplug.go:163-176 | for every n, some run from the start makes n + 1 offers, never signals nor re-probes, and still owes the wake-up |

## Left out

- CEL text: rendering, quoting and the real CEL compiler. Expressions are ASTs; a user's extra selector is opaque text.
- Class nic.llmfit.ai in the selector theorem, which the evaluation does not mirror. `Publisher.NicNeverAdmitted` covers NICs under every class.
- Attributes a driver publishes under an explicitly written prefix of its own domain: own-domain names are unprefixed here, and only `resource.kubernetes.io` is kept apart.
- Integer widths and floating point: quantities are mathematical integers, scores and gigabytes are reals, fractional quantities do not occur.
- `VendorOf`: the vendor of an llmfit entry is a field, "" when it cannot be classified.
- The conversion between a float64 and its shortest decimal; `Text.FormatDecimal` starts from the decimal.
- Truncation of attribute strings to 64 bytes and the remaining descriptive attributes (vendor, model, backend, link details) in what a published device is proved to say.
- Wording of messages and events beyond which reasons and constraints they carry; `parseMIGProfile`, which only words a diagnostic.
- sysfs, netlink, HTTP, exec, JSON and file synchronisation: what they deliver are inputs, and writing or removing a spec file is one map operation that may fail.
- NvidiaFit.NvidiaFitCorrect: for a type or product name published as a version attribute it rests on the convention above, since the platform's version type is outside the CEL sections cited.
- Informers, work queue, the resourceslice and kubeletplugin helpers: one reconcile is atomic on its own name, as the queue serialises a key and one replica runs.
- The close-once and descriptor handling of the uevent socket and its shutdown watcher.
- Templates.WrittenAgrees: agreement on desired annotations only, because the merge keeps managed annotations that are no longer desired.
- Which record survives a clash of names: the publisher keeps the first device, the inventory the last. Sets of names are proved equal always (Publisher.BuildDevices, NodePlugin.Inventory.Set), records when names differ (NodePlugin.DistinctNamesSameRecord).
- The outer per-claim map of `PrepareResourceClaims` and `UnprepareResourceClaims`, which calls the modelled operations one claim at a time.
- The choice of which informer events requeue claims, metrics, health, command-line wiring, charts, RBAC and generated deep copies.
