/** Rendering the ResourceClaimTemplate of a ModelClaim and telling when the live
    one has drifted (internal/modelclaim/template.go, internal/modelclaim/backend.go). */
module Templates {
  import opened Prelude
  import opened Resources
  import opened Boards
  import Cel
  import LlmfitFit
  import NvidiaFit
  import Text

  datatype ClaimSpec = ClaimSpec(
    model: string,
    minTps: Option<Text.Decimal>,
    quant: string,
    efficiencyPct: Option<nat>,
    deviceClass: string,
    targetDriver: string,
    minComputeTFLOPS: Option<nat>,
    extraSelectors: seq<string>)

  datatype ModelClaim = ModelClaim(namespace: string, name: string, uid: string, generation: nat, spec: ClaimSpec)

  /** A selector's expression: one the compilers emitted, or the user's own text. */
  datatype Expression = Emitted(e: Cel.Expr) | Verbatim(text: string)

  datatype Selector = Selector(cel: Option<Expression>)

  /** `defaults` stands for the fields the controller never sets or compares and
      the API server fills in. */
  datatype ExactRequest = ExactRequest(deviceClass: string, selectors: seq<Selector>, defaults: map<string, string>)

  datatype Request = Request(name: string, exactly: Option<ExactRequest>, defaults: map<string, string>)

  datatype Template = Template(
    namespace: string,
    name: string,
    controller: Option<string>,
    labels: map<string, string>,
    annotations: map<string, string>,
    requests: seq<Request>)

  /** The template's controller reference names this very claim. */
  predicate ControlledBy(t: Template, mc: ModelClaim) {
    t.controller == Some(mc.uid)
  }

  predicate TargetsNvidia(deviceClass: string, targetDriver: string) {
    targetDriver == NVIDIA_DOMAIN || deviceClass == NVIDIA_GPU_CLASS || deviceClass == NVIDIA_MIG_CLASS
  }

  /** The opt-in compute floor, 0 when unset. */
  function FloorOf(mc: ModelClaim): nat {
    if mc.spec.minComputeTFLOPS.Some? then mc.spec.minComputeTFLOPS.value else 0
  }

  function DeviceClassOf(mc: ModelClaim): string {
    if mc.spec.deviceClass == "" then LLMFIT_DOMAIN else mc.spec.deviceClass
  }

  // ---- The desired template -----------------------------------------------------------

  /** The user's selectors that say something, trimmed, in order. */
  function Extras(texts: seq<string>): seq<Selector> {
    if texts == [] then []
    else
      var s := Text.TrimSpace(texts[|texts| - 1]);
      Extras(texts[..|texts| - 1]) + (if s != "" then [Selector(Some(Verbatim(s)))] else [])
  }

  /** The user's selectors are treated one by one, in order. */
  lemma {:induction false} ExtrasAppend(a: seq<string>, c: seq<string>)
    ensures Extras(a + c) == Extras(a) + Extras(c)
  {
    if c == [] {
      assert a + c == a;
    } else {
      ExtrasAppend(a, c[..|c| - 1]);
      assert (a + c)[..|a + c| - 1] == a + c[..|c| - 1];
    }
  }

  /** A blank one is dropped, any other kept without the white space around it. */
  lemma ExtrasOne(text: string) returns (i: nat, j: nat)
    ensures i <= j <= |text| && Text.AllSpace(text[..i]) && Text.AllSpace(text[j..])
    ensures i < j ==> !Text.IsSpace(text[i]) && !Text.IsSpace(text[j - 1])
    ensures Extras([text]) == if Text.AllSpace(text) then [] else [Selector(Some(Verbatim(text[i..j])))]
  {
    hide Text.IsSpace;
    i, j := Text.TrimSpaceExactly(text);
    assert [text][..0] == [];
    assert Extras([text][..0]) == [];
  }

  /** A claim label must fit 63 characters and end well: a longer name is cut there and
      loses exactly its trailing punctuation. */
  function LabelValue(s: string): (r: string)
    ensures |r| <= 63
    ensures |s| <= 63 ==> r == s
    ensures r <= s
    ensures |s| > 63 ==> r == "" || r[|r| - 1] !in "-_."
    ensures |s| > 63 ==> forall i :: |r| <= i < 63 ==> s[i] in "-_."
  {
    if |s| <= 63 then s else TrimRight(s[..63])
  }

  function TrimRight(s: string): (r: string)
    ensures r <= s
    ensures r != "" ==> r[|r| - 1] !in "-_."
    ensures forall i :: |r| <= i < |s| ==> s[i] in "-_."
  {
    if s != "" && s[|s| - 1] in "-_." then TrimRight(s[..|s| - 1]) else s
  }

  /** Everything that can change the emitted expression without changing the spec
      tuple appears here, so that it shows up as drift. */
  function Annotations(b: Bounds, nvidia: bool, boardsVersion: string): map<string, string> {
    var a := map[
      "llmfit.ai/model" := b.model,
      "llmfit.ai/quant" := b.quant,
      "llmfit.ai/resolver-version" := b.resolverVersion,
      "llmfit.ai/target-driver" := if nvidia then NVIDIA_DOMAIN else LLMFIT_DOMAIN];
    if nvidia then a["llmfit.ai/nvidia-boards-version" := boardsVersion] else a
  }

  /** The expression the claim's backend emits. */
  ghost predicate IsFit(mc: ModelClaim, b: Bounds, deviceClass: string, t: BoardTable, e: Cel.Expr) {
    if TargetsNvidia(deviceClass, mc.spec.targetDriver)
    then NvidiaFit.IsNvidiaFit(t, b, deviceClass, FloorOf(mc), e)
    else e == LlmfitFit.FitCEL(b, deviceClass, FloorOf(mc))
  }

  ghost function Rendered(mc: ModelClaim, b: Bounds, deviceClass: string, t: BoardTable, e: Cel.Expr): Template {
    Template(mc.namespace, mc.name, Some(mc.uid),
             map["llmfit.ai/modelclaim" := LabelValue(mc.name)],
             Annotations(b, TargetsNvidia(deviceClass, mc.spec.targetDriver), t.version),
             [Request("model", Some(ExactRequest(deviceClass,
                [Selector(Some(Emitted(e)))] + Extras(mc.spec.extraSelectors), map[])), map[])])
  }

  ghost predicate IsDesired(mc: ModelClaim, b: Bounds, deviceClass: string, t: BoardTable, desired: Template) {
    exists e :: IsFit(mc, b, deviceClass, t, e) && desired == Rendered(mc, b, deviceClass, t, e)
  }

  /** The claim asks for the NVIDIA compiler: by driver, or by one of NVIDIA's classes. */
  predicate WantsNvidia(mc: ModelClaim, deviceClass: string) {
    mc.spec.targetDriver == "gpu.nvidia.com" || deviceClass == "gpu.nvidia.com" || deviceClass == "mig.nvidia.com"
  }

  /** What a desired template says, from the fields of claim, bounds and table: whose it
      is, the one request named model, the compiled expression for exactly this class
      and compute floor (0 when unset) by the compiler the claim asks for, then the
      user's selectors; and the annotations that tell when any of this went stale. */
  lemma DesiredSays(mc: ModelClaim, b: Bounds, deviceClass: string, t: BoardTable, desired: Template) returns (e: Cel.Expr)
    requires IsDesired(mc, b, deviceClass, t, desired)
    ensures desired.namespace == mc.namespace && desired.name == mc.name && desired.controller == Some(mc.uid)
    ensures desired.labels == map["llmfit.ai/modelclaim" := LabelValue(mc.name)]
    ensures desired.requests ==
            [Request("model", Some(ExactRequest(deviceClass, [Selector(Some(Emitted(e)))] + Extras(mc.spec.extraSelectors), map[])), map[])]
    ensures var floor := if mc.spec.minComputeTFLOPS.Some? then mc.spec.minComputeTFLOPS.value else 0;
            if WantsNvidia(mc, deviceClass) then NvidiaFit.IsNvidiaFit(t, b, deviceClass, floor, e)
            else e == LlmfitFit.FitCEL(b, deviceClass, floor)
    ensures desired.annotations ==
            map["llmfit.ai/model" := b.model, "llmfit.ai/quant" := b.quant, "llmfit.ai/resolver-version" := b.resolverVersion,
                "llmfit.ai/target-driver" := if WantsNvidia(mc, deviceClass) then "gpu.nvidia.com" else "llmfit.ai"]
            + if WantsNvidia(mc, deviceClass) then map["llmfit.ai/nvidia-boards-version" := t.version] else map[]
  {
    hide NvidiaFit.IsNvidiaFit, LlmfitFit.FitCEL, LabelValue, Extras;
    e :| IsFit(mc, b, deviceClass, t, e) && desired == Rendered(mc, b, deviceClass, t, e);
  }

  /** One claim, one set of bounds, one board table: one desired template. */
  lemma DesiredUnique(mc: ModelClaim, b: Bounds, deviceClass: string, t: BoardTable, x: Template, y: Template)
    requires IsDesired(mc, b, deviceClass, t, x) && IsDesired(mc, b, deviceClass, t, y)
    ensures x == y
  {
    hide NvidiaFit.IsNvidiaFit, LlmfitFit.FitCEL, Annotations, LabelValue, Extras;
    var e :| IsFit(mc, b, deviceClass, t, e) && x == Rendered(mc, b, deviceClass, t, e);
    var f :| IsFit(mc, b, deviceClass, t, f) && y == Rendered(mc, b, deviceClass, t, f);
    if TargetsNvidia(deviceClass, mc.spec.targetDriver) {
      NvidiaFit.NvidiaFitUnique(t, b, deviceClass, FloorOf(mc), e, f);
    }
  }

  method BuildTemplate(mc: ModelClaim, b: Bounds, deviceClass: string, t: BoardTable) returns (desired: Template)
    ensures IsDesired(mc, b, deviceClass, t, desired)
    ensures ControlledBy(desired, mc) && desired.namespace == mc.namespace && desired.name == mc.name
  {
    hide NvidiaFit.IsNvidiaFit, LlmfitFit.FitCEL;
    var fit := LlmfitFit.FitCEL(b, deviceClass, FloorOf(mc));
    var nvidia := TargetsNvidia(deviceClass, mc.spec.targetDriver);
    if nvidia {
      fit := NvidiaFit.NvidiaFitCEL(b, t, deviceClass, FloorOf(mc));
    }
    var selectors := [Selector(Some(Emitted(fit)))];
    var extra := mc.spec.extraSelectors;
    for i := 0 to |extra|
      invariant selectors == [Selector(Some(Emitted(fit)))] + Extras(extra[..i])
    {
      assert extra[..i + 1][..i] == extra[..i];
      var s := Text.TrimSpace(extra[i]);
      if s != "" {
        selectors := selectors + [Selector(Some(Verbatim(s)))];
      }
    }
    assert extra[..|extra|] == extra;
    desired := Template(mc.namespace, mc.name, Some(mc.uid),
                        map["llmfit.ai/modelclaim" := LabelValue(mc.name)],
                        Annotations(b, nvidia, t.version),
                        [Request("model", Some(ExactRequest(deviceClass, selectors, map[])), map[])]);
    assert desired == Rendered(mc, b, deviceClass, t, fit);
  }

  // ---- Drift ------------------------------------------------------------------------------

  predicate SelectorAgrees(l: Selector, d: Selector) {
    l.cel == d.cel
  }

  predicate RequestAgrees(l: Request, d: Request) {
    && l.name == d.name
    && (l.exactly.Some? <==> d.exactly.Some?)
    && (l.exactly.Some? ==>
          && l.exactly.value.deviceClass == d.exactly.value.deviceClass
          && |l.exactly.value.selectors| == |d.exactly.value.selectors|
          && forall j :: 0 <= j < |d.exactly.value.selectors| ==> SelectorAgrees(l.exactly.value.selectors[j], d.exactly.value.selectors[j]))
  }

  ghost predicate AnnotationsAgree(live: map<string, string>, desired: map<string, string>) {
    forall k :: k in desired ==> GetOr(live, k, "") == desired[k]
  }

  /** The live template asks for what is desired and carries the managed annotations. */
  ghost predicate Agrees(live: Template, desired: Template) {
    && |live.requests| == |desired.requests|
    && (forall i :: 0 <= i < |desired.requests| ==> RequestAgrees(live.requests[i], desired.requests[i]))
    && AnnotationsAgree(live.annotations, desired.annotations)
  }

  /** A request without the fields the comparison ignores. */
  function Stripped(r: Request): Request {
    r.(defaults := map[], exactly := if r.exactly.Some? then Some(r.exactly.value.(defaults := map[])) else None)
  }

  function AllStripped(rs: seq<Request>): seq<Request> {
    seq(|rs|, i requires 0 <= i < |rs| => Stripped(rs[i]))
  }

  /** Agreement is equality of everything that matters: the requests but for server
      defaults, and the value of every desired annotation. */
  lemma AgreesExactly(live: Template, desired: Template)
    ensures Agrees(live, desired) <==>
            && AllStripped(live.requests) == AllStripped(desired.requests)
            && forall k :: k in desired.annotations ==>
                 if k in live.annotations then live.annotations[k] == desired.annotations[k] else desired.annotations[k] == ""
  {
    forall l: Request, d: Request
      ensures RequestAgrees(l, d) <==> Stripped(l) == Stripped(d)
    {
      if RequestAgrees(l, d) && l.exactly.Some? {
        assert l.exactly.value.selectors == d.exactly.value.selectors;
      }
    }
    var a, c := AllStripped(live.requests), AllStripped(desired.requests);
    assert forall i :: 0 <= i < |live.requests| ==> a[i] == Stripped(live.requests[i]);
    assert forall i :: 0 <= i < |desired.requests| ==> c[i] == Stripped(desired.requests[i]);
  }

  method TemplateNeedsUpdate(live: Template, desired: Template) returns (drifted: bool)
    ensures drifted <==> !Agrees(live, desired)
  {
    if |live.requests| != |desired.requests| {
      return true;
    }
    for i := 0 to |desired.requests|
      invariant forall k :: 0 <= k < i ==> RequestAgrees(live.requests[k], desired.requests[k])
    {
      var l, d := live.requests[i], desired.requests[i];
      if l.name != d.name {
        return true;
      }
      if l.exactly.None? != d.exactly.None? {
        return true;
      }
      if l.exactly.None? {
        continue;
      }
      var le, de := l.exactly.value, d.exactly.value;
      if le.deviceClass != de.deviceClass {
        return true;
      }
      if |le.selectors| != |de.selectors| {
        return true;
      }
      for j := 0 to |de.selectors|
        invariant forall k :: 0 <= k < j ==> SelectorAgrees(le.selectors[k], de.selectors[k])
      {
        var ls, ds := le.selectors[j], de.selectors[j];
        if ls.cel.None? != ds.cel.None? {
          return true;
        }
        if ls.cel.Some? && ls.cel.value != ds.cel.value {
          return true;
        }
      }
    }
    var todo := desired.annotations.Keys;
    while todo != {}
      invariant todo <= desired.annotations.Keys
      invariant forall k :: k in desired.annotations && k !in todo ==> GetOr(live.annotations, k, "") == desired.annotations[k]
      decreases todo
    {
      var k :| k in todo;
      if GetOr(live.annotations, k, "") != desired.annotations[k] {
        return true;
      }
      todo := todo - {k};
    }
    return false;
  }

  /** The live object with the desired spec and the managed annotations merged in;
      its identity and every foreign annotation stay. */
  method MergeInto(live: Template, desired: Template) returns (updated: Template)
    ensures updated == live.(requests := desired.requests, annotations := live.annotations + desired.annotations)
  {
    var annotations := live.annotations;
    var todo := desired.annotations.Keys;
    while todo != {}
      invariant todo <= desired.annotations.Keys
      invariant annotations.Keys == live.annotations.Keys + (desired.annotations.Keys - todo)
      invariant forall k :: k in annotations ==>
        annotations[k] == if k in desired.annotations && k !in todo then desired.annotations[k] else live.annotations[k]
      decreases todo
    {
      var k :| k in todo;
      annotations := annotations[k := desired.annotations[k]];
      todo := todo - {k};
    }
    assert annotations == live.annotations + desired.annotations;
    updated := live.(requests := desired.requests, annotations := annotations);
  }

  /** What the API server may do to a written template: fill in fields the
      comparison ignores, and nothing else. */
  ghost predicate Stores(written: Template, stored: Template) {
    && stored == written.(requests := stored.requests)
    && |stored.requests| == |written.requests|
    && forall i :: 0 <= i < |stored.requests| ==> RequestAgrees(stored.requests[i], written.requests[i])
  }

  /** A server that defaults nothing is one of them. */
  lemma StoredUnchanged()
    ensures forall x :: Stores(x, x)
  {
  }

  /** However the server defaults them, created and merged templates agree with the
      desired one: the drift that triggered the write is gone. */
  lemma WrittenAgrees(live: Template, desired: Template, written: Template, stored: Template)
    requires written == desired || written == live.(requests := desired.requests, annotations := live.annotations + desired.annotations)
    requires Stores(written, stored)
    ensures Agrees(stored, desired)
  {
    assert AnnotationsAgree(stored.annotations, desired.annotations);
  }
}
