/** The ModelClaim reconciler: one reconcile as the source runs it, and what any
    sequence of reconciles, user edits and foreign writes can reach
    (internal/modelclaim/controller.go). */
module Reconciler {
  import opened Prelude
  import opened Resources
  import opened Boards
  import opened Templates
  import opened Conditions
  import opened ResolverCache
  import opened Tally
  import Agreement
  import Cel
  import LlmfitFit
  import NvidiaFit
  import Slots
  import Satisfiable
  import NvidiaSatisfiable
  import Text

  /** Namespace and name. */
  type ObjectKey = (string, string)

  function KeyOf(mc: ModelClaim): ObjectKey {
    (mc.namespace, mc.name)
  }

  /** What the API server holds: templates, and the statuses of existing claims. */
  datatype World = World(templates: map<ObjectKey, Template>, statuses: map<ObjectKey, Status>)

  datatype UpdateAnswer = Accepted | Invalid | UpdateError

  datatype StatusAnswer = StatusWritten | StatusConflict | StatusError

  /** How the API server answers the calls of one reconcile. */
  datatype Api = Api(
    getOK: bool, createOK: bool,
    update: UpdateAnswer, deleteOK: bool, recreateOK: bool,
    status: StatusAnswer)

  /** No call fails; an immutable template may still force the recreate path. */
  predicate Smooth(api: Api) {
    api.getOK && api.createOK && api.update != UpdateError && api.deleteOK && api.recreateOK && api.status != StatusError
  }

  datatype Write = Create | Update | Delete

  datatype Outcome = InvalidModel | ResolveFailed | TemplateConflict | CallFailed | Done

  datatype Report = Report(api: Api, outcome: Outcome, bounds: Option<Bounds>, writes: seq<Write>)

  /** A template of that name exists and some other object, or nobody, controls it. */
  predicate Foreign(templates: map<ObjectKey, Template>, mc: ModelClaim) {
    KeyOf(mc) in templates && !ControlledBy(templates[KeyOf(mc)], mc)
  }

  /** The live template is the claim's own and asks for what these bounds ask. */
  ghost predicate Settled(templates: map<ObjectKey, Template>, mc: ModelClaim, b: Bounds, t: BoardTable) {
    && KeyOf(mc) in templates
    && ControlledBy(templates[KeyOf(mc)], mc)
    && exists desired :: IsDesired(mc, b, DeviceClassOf(mc), t, desired) && Agrees(templates[KeyOf(mc)], desired)
  }

  ghost predicate SameExcept<V>(a: map<ObjectKey, V>, c: map<ObjectKey, V>, k: ObjectKey) {
    forall x :: x != k ==> (x in a <==> x in c) && (x in a && x in c ==> a[x] == c[x])
  }

  // ---- What one reconcile may do ---------------------------------------------------------

  /** Only the claim's own name is touched, and there never a template of someone else. */
  ghost predicate TemplatesMove(w: map<ObjectKey, Template>, w': map<ObjectKey, Template>, mc: ModelClaim, writes: seq<Write>) {
    var k := KeyOf(mc);
    && SameExcept(w, w', k)
    && (writes == [] ==> w' == w)
    && (Foreign(w, mc) ==> w' == w && writes == [])
    && (k in w' && w' != w ==> ControlledBy(w'[k], mc))
  }

  /** The reason both conditions carry after a reconcile that could not validate,
      resolve or own. */
  function ReasonOf(o: Outcome): string {
    match o
    case InvalidModel => "InvalidModel"
    case ResolveFailed => "ResolveFailed"
    case TemplateConflict => "TemplateConflict"
    case _ => ""
  }

  predicate Withdraws(o: Outcome) {
    o in {InvalidModel, ResolveFailed, TemplateConflict}
  }

  /** What the status says once this outcome has been written to it. */
  ghost predicate Verdict(s: Status, mc: ModelClaim, o: Outcome, bounds: Option<Bounds>) {
    && Coherent(s)
    && (o == InvalidModel ==> FailedFor(s, mc.generation, "InvalidModel"))
    && (o == ResolveFailed ==> FailedFor(s, mc.generation, "ResolveFailed"))
    && (o == TemplateConflict ==> FailedFor(s, mc.generation, "TemplateConflict"))
    && (o == Done ==> bounds.Some? && exists c: Snapshot :: ResolvedAs(s, mc.generation, mc.name, bounds.value, c))
  }

  /** The claim's status, if it exists and the write went through, now carries the
      verdict; otherwise it is what it was. */
  ghost predicate Recorded(w: map<ObjectKey, Status>, w': map<ObjectKey, Status>, mc: ModelClaim, api: Api,
                           o: Outcome, bounds: Option<Bounds>) {
    var k := KeyOf(mc);
    && SameExcept(w, w', k)
    && (k in w <==> k in w')
    && (k in w ==>
          if api.status == StatusWritten
          then Verdict(w'[k], mc, o, bounds)
          else w'[k] == w[k])
  }

  /** The verdict is recorded by a reconcile that gets to the end, and by one that
      cannot validate, resolve or own; not at all when a call fails. */
  ghost predicate StatusesMove(w: map<ObjectKey, Status>, w': map<ObjectKey, Status>, mc: ModelClaim, r: Report) {
    if r.outcome == CallFailed then w' == w else Recorded(w, w', mc, r.api, r.outcome, r.bounds)
  }

  /** What the resolver is asked for a claim; the fallbacks cover objects older than
      the schema defaults. */
  function TupleOf(mc: ModelClaim): Tuple {
    Tuple(mc.spec.model,
          if mc.spec.minTps.Some? then mc.spec.minTps.value else Text.Shortest(false, 20, ""),
          mc.spec.quant,
          if mc.spec.efficiencyPct.Some? then mc.spec.efficiencyPct.value else 0)
  }

  /** A call that asks for exactly what the claim's spec says: its model and
      quantisation, the given throughput floor or 20, the given efficiency or 0. */
  ghost predicate AsksFor(mc: ModelClaim, c: Call) {
    && c.tuple.model == mc.spec.model
    && c.tuple.quant == mc.spec.quant
    && (mc.spec.minTps.Some? ==> c.tuple.minTps == mc.spec.minTps.value)
    && (mc.spec.minTps.None? ==> Text.FormatDecimal(c.tuple.minTps) == "20")
    && (mc.spec.efficiencyPct.Some? ==> c.tuple.efficiency == mc.spec.efficiencyPct.value)
    && (mc.spec.efficiencyPct.None? ==> c.tuple.efficiency == 0)
  }

  lemma TupleAsksFor(mc: ModelClaim, c: Call)
    requires c.tuple == TupleOf(mc)
    ensures AsksFor(mc, c)
  {
    assert Text.Itoa(20) == "20" by {
      assert Text.Itoa(2) == "2";
    }
  }

  /** Within the last ten minutes the resolver, asked for exactly this spec, gave these bounds. */
  ghost predicate SaidOfSpec(calls: seq<Call>, mc: ModelClaim, b: Bounds, now: int) {
    exists c :: c in calls && AsksFor(mc, c) && c.answer == Ok(b) && now < c.at + 600
  }

  /** At most one call more, for exactly this spec, made now and answered so. */
  ghost predicate AskedOnce(before: seq<Call>, after: seq<Call>, mc: ModelClaim, answer: Answer, now: int) {
    after == before || exists c :: AsksFor(mc, c) && c.at == now && c.answer == answer && after == before + [c]
  }

  /** The question the satisfiability check asks for a claim. */
  function QueryOf(mc: ModelClaim, b: Bounds, t: BoardTable): Slots.Query {
    var c := DeviceClassOf(mc);
    if TargetsNvidia(c, mc.spec.targetDriver) then Slots.Nvidia(b, c, FloorOf(mc), t) else Slots.Llmfit(b, c, FloorOf(mc))
  }

  ghost predicate ReconcileStep(w: World, w': World, mc: ModelClaim, t: BoardTable, r: Report) {
    && TemplatesMove(w.templates, w'.templates, mc, r.writes)
    && StatusesMove(w.statuses, w'.statuses, mc, r)
    && (Withdraws(r.outcome) ==> r.writes == [])
    && (r.bounds.None? ==> r.writes == [])
    && (r.outcome == Done ==> r.bounds.Some? && Settled(w'.templates, mc, r.bounds.value, t))
    && (r.bounds.Some? && Settled(w.templates, mc, r.bounds.value, t) ==> r.writes == [])
    && (r.bounds.Some? && Smooth(r.api) && !Foreign(w.templates, mc) ==> r.outcome == Done)
    && (r.bounds.Some? && r.api.getOK && r.api.status != StatusError ==>
          (r.outcome == TemplateConflict <==> Foreign(w.templates, mc)))
  }

  /** Nothing already emitted is lost, and what is added concerns this claim. */
  ghost predicate NotesAdded(before: seq<Note>, after: seq<Note>, mc: ModelClaim) {
    && |before| <= |after| && after[..|before|] == before
    && forall i :: |before| <= i < |after| ==> mc.namespace + "/" + mc.name + "/" <= after[i].key
  }

  lemma NotesChain(a: seq<Note>, b: seq<Note>, c: seq<Note>, mc: ModelClaim)
    requires NotesAdded(a, b, mc) && NotesAdded(b, c, mc)
    ensures NotesAdded(a, c, mc)
  {
    assert c[..|a|] == b[..|a|];
    forall i | |a| <= i < |c|
      ensures mc.namespace + "/" + mc.name + "/" <= c[i].key
    {
      if i < |b| {
        assert c[..|b|][i] == b[i];
      }
    }
  }

  // ---- The controller ------------------------------------------------------------------------

  datatype Stage = Ready | Conflicting | Failing

  class Controller {
    const boards: BoardTable
    const cache: Cache
    const events: Recorder
    var templates: map<ObjectKey, Template>
    var statuses: map<ObjectKey, Status>

    ghost predicate Valid()
      reads this, cache, events
    {
      && cache.Valid() && events.Valid()
      // The API schema keys the list of conditions by kind.
      && forall k :: k in statuses ==> UniqueKinds(statuses[k].conditions)
    }

    ghost function State(): World
      reads this
    {
      World(templates, statuses)
    }

    /** Starts with an empty cache and no memory of events, over whatever the API
        server already holds. */
    constructor (boards: BoardTable, templates: map<ObjectKey, Template>, statuses: map<ObjectKey, Status>)
      requires forall k :: k in statuses ==> UniqueKinds(statuses[k].conditions)
      ensures Valid() && this.boards == boards && State() == World(templates, statuses)
      ensures fresh(cache) && fresh(events) && cache.calls == [] && events.emitted == []
    {
      this.boards, this.templates, this.statuses := boards, templates, statuses;
      cache := new Cache();
      events := new Recorder();
    }

    method Say(mc: ModelClaim, reason: string, message: string)
      requires Valid()
      modifies events
      ensures Valid() && NotesAdded(old(events.emitted), events.emitted, mc)
    {
      var sent := events.Emit(mc.namespace + "/" + mc.name + "/" + reason, message);
    }

    /** Creates the template; `server` is what the API server makes of a write. */
    method CreateTemplate(mc: ModelClaim, desired: Template, ok: bool, server: Template -> Template) returns (stage: Stage)
      requires ControlledBy(desired, mc) && (forall x :: Stores(x, server(x)))
      modifies this`templates
      ensures stage == if ok then Ready else Failing
      ensures templates == if ok then old(templates)[KeyOf(mc) := server(desired)] else old(templates)
      ensures ControlledBy(server(desired), mc) && Agrees(server(desired), desired)
    {
      hide Agrees;
      WrittenAgrees(desired, desired, desired, server(desired));
      StoredKeepsController(desired, server(desired), mc);
      if !ok {
        return Failing;
      }
      templates := templates[KeyOf(mc) := server(desired)];
      return Ready;
    }

    /** Updates a controlled, drifted template; where its spec is immutable, deletes
        and recreates it under the same name. */
    method UpdateTemplate(mc: ModelClaim, live: Template, desired: Template, api: Api, server: Template -> Template)
      returns (stage: Stage, writes: seq<Write>)
      requires ControlledBy(live, mc) && ControlledBy(desired, mc) && (forall x :: Stores(x, server(x)))
      modifies this`templates
      ensures writes != [] && stage in {Ready, Failing}
      ensures stage == Ready ==> exists stored ::
                templates == old(templates)[KeyOf(mc) := stored] && ControlledBy(stored, mc) && Agrees(stored, desired)
      ensures stage == Failing ==> templates == old(templates) || templates == old(templates) - {KeyOf(mc)}
      ensures Smooth(api) ==> stage == Ready
    {
      hide Agrees, Stores;
      var updated := MergeInto(live, desired);
      writes := [Update];
      if api.update == Accepted {
        WrittenAgrees(live, desired, updated, server(updated));
        StoredKeepsController(updated, server(updated), mc);
        templates := templates[KeyOf(mc) := server(updated)];
        return Ready, writes;
      }
      if api.update == UpdateError {
        return Failing, writes;
      }
      writes := writes + [Delete];
      if !api.deleteOK {
        return Failing, writes;
      }
      ghost var before := templates;
      templates := templates - {KeyOf(mc)};
      writes := writes + [Create];
      stage := CreateTemplate(mc, desired, api.recreateOK, server);
      assert (before - {KeyOf(mc)})[KeyOf(mc) := server(desired)] == before[KeyOf(mc) := server(desired)];
    }

    /** Brings the same-named template in line with `desired`, never touching one
        the claim does not control. */
    method ReconcileTemplate(mc: ModelClaim, desired: Template, api: Api, server: Template -> Template)
      returns (stage: Stage, writes: seq<Write>)
      requires Valid() && ControlledBy(desired, mc)
      requires forall x :: Stores(x, server(x))
      modifies this`templates, events
      ensures Valid() && NotesAdded(old(events.emitted), events.emitted, mc)
      ensures TemplatesMove(old(templates), templates, mc, writes)
      ensures stage == Conflicting <==> api.getOK && Foreign(old(templates), mc)
      ensures stage == Ready ==> KeyOf(mc) in templates && ControlledBy(templates[KeyOf(mc)], mc) && Agrees(templates[KeyOf(mc)], desired)
      ensures KeyOf(mc) in old(templates) && ControlledBy(old(templates)[KeyOf(mc)], mc) && Agrees(old(templates)[KeyOf(mc)], desired) ==>
                writes == []
      ensures Smooth(api) && !Foreign(old(templates), mc) ==> stage == Ready
    {
      hide Agrees, Stores, UniqueKinds, SameExcept, Cache.Valid, Recorder.Valid;
      var k := KeyOf(mc);
      ghost var before := templates;
      NothingMoves(before, k);
      if !api.getOK {
        return Failing, [];
      }
      if k !in templates {
        writes := [Create];
        stage := CreateTemplate(mc, desired, api.createOK, server);
        PutMoves(before, k, server(desired));
        if stage == Ready {
          Say(mc, "TemplateCreated", desired.name);
        }
        return;
      }
      var live := templates[k];
      if !ControlledBy(live, mc) {
        return Conflicting, [];
      }
      var drifted := TemplateNeedsUpdate(live, desired);
      if !drifted {
        return Ready, [];
      }
      stage, writes := UpdateTemplate(mc, live, desired, api, server);
      if stage == Failing {
        DropMoves(before, k);
        return;
      }
      ghost var stored :| templates == before[k := stored] && ControlledBy(stored, mc) && Agrees(stored, desired);
      PutMoves(before, k, stored);
      Say(mc, "TemplateUpdated", desired.name);
    }

    /** Writes a status computed from the fresh one; a conflicting write is left for
        the informer's next event. */
    method UpdateStatus(mc: ModelClaim, next: Status, api: Api) returns (ok: bool)
      requires KeyOf(mc) in statuses
      modifies this`statuses
      ensures ok <==> api.status != StatusError
      ensures statuses == if api.status == StatusWritten then old(statuses)[KeyOf(mc) := next] else old(statuses)
    {
      if api.status == StatusWritten {
        statuses := statuses[KeyOf(mc) := next];
      }
      return api.status != StatusError;
    }

    method Fail(mc: ModelClaim, outcome: Outcome, ghost bounds: Option<Bounds>, why: string, what: string, api: Api, now: int)
      returns (ok: bool)
      requires Valid() && Withdraws(outcome)
      modifies this`statuses, events
      ensures Valid() && NotesAdded(old(events.emitted), events.emitted, mc)
      ensures ok ==> Recorded(old(statuses), statuses, mc, api, outcome, bounds)
      ensures !ok ==> statuses == old(statuses)
      ensures api.status != StatusError ==> ok
    {
      hide Coherent, UniqueKinds, FailedFor, Cache.Valid, Recorder.Valid;
      var reason := ReasonOf(outcome);
      Say(mc, reason, why);
      if KeyOf(mc) !in statuses {
        return true; // deleted meanwhile
      }
      var next := MarkFailed(statuses[KeyOf(mc)], mc.generation, reason, why, what, now);
      CoherentIsUnique(next);
      ok := UpdateStatus(mc, next, api);
    }

    method Succeed(mc: ModelClaim, b: Bounds, c: Snapshot, messages: (string, string), api: Api, now: int) returns (ok: bool)
      requires Valid()
      modifies this`statuses
      ensures Valid()
      ensures ok ==> Recorded(old(statuses), statuses, mc, api, Done, Some(b))
      ensures !ok ==> statuses == old(statuses)
      ensures api.status != StatusError ==> ok
      ensures api.status == StatusWritten && KeyOf(mc) in old(statuses) ==>
                KeyOf(mc) in statuses && ResolvedAs(statuses[KeyOf(mc)], mc.generation, mc.name, b, c)
    {
      hide Coherent, UniqueKinds, ResolvedAs, Cache.Valid, Recorder.Valid;
      if KeyOf(mc) !in statuses {
        return true;
      }
      var next := MarkResolved(statuses[KeyOf(mc)], mc.generation, mc.name, b, c, messages, now);
      CoherentIsUnique(next);
      ok := UpdateStatus(mc, next, api);
    }

    method Evaluate(mc: ModelClaim, b: Bounds, slices: seq<Slice>, claims: seq<ResourceClaim>) returns (c: Snapshot)
      ensures c.devices == Slots.Devices(QueryOf(mc, b, boards), slices)
      ensures c.nodes == Slots.Nodes(QueryOf(mc, b, boards), slices)
      ensures c.available == Slots.Available(QueryOf(mc, b, boards), slices,
                                             Slots.HeldKeys(claims, Slots.DriverOf(QueryOf(mc, b, boards))))
    {
      hide Slots.Devices, Slots.Nodes, Slots.Available, Slots.HeldKeys;
      var deviceClass := DeviceClassOf(mc);
      if TargetsNvidia(deviceClass, mc.spec.targetDriver) {
        var held := Satisfiable.AllocatedDevices(claims, NVIDIA_DOMAIN);
        c := NvidiaSatisfiable.EvaluateNvidiaSlices(slices, held, b, deviceClass, FloorOf(mc), boards);
      } else {
        var held := Satisfiable.AllocatedDevices(claims, LLMFIT_DOMAIN);
        c := Satisfiable.EvaluateSlices(slices, held, b, deviceClass, FloorOf(mc));
      }
    }

    /** The counts a status records for a claim under these bounds. */
    ghost function Counts(mc: ModelClaim, b: Bounds, slices: seq<Slice>, claims: seq<ResourceClaim>): (nat, nat, nat) {
      var q := QueryOf(mc, b, boards);
      (Slots.Devices(q, slices), Slots.Nodes(q, slices), Slots.Available(q, slices, Slots.HeldKeys(claims, Slots.DriverOf(q))))
    }

    /** The part of a reconcile after resolution: template, evaluation, status. */
    method Apply(mc: ModelClaim, b: Bounds, seen: seq<Condition>, now: int,
                 slices: seq<Slice>, claims: seq<ResourceClaim>, api: Api, server: Template -> Template)
      returns (r: Report)
      requires Valid()
      requires forall x :: Stores(x, server(x))
      modifies this`templates, this`statuses, events
      ensures Valid() && NotesAdded(old(events.emitted), events.emitted, mc)
      ensures cache.calls == old(cache.calls)
      ensures ReconcileStep(old(State()), State(), mc, boards, r) && r.api == api && r.bounds == Some(b)
      ensures r.outcome in {TemplateConflict, CallFailed, Done}
      ensures r.outcome == Done && api.status == StatusWritten && KeyOf(mc) in old(statuses) ==>
                KeyOf(mc) in statuses && statuses[KeyOf(mc)].candidates == Some(Counts(mc, b, slices, claims))
    {
      hide Agrees, IsDesired, Stores, Coherent, UniqueKinds, Cache.Valid, Recorder.Valid, SameExcept, Recorded;
      hide Slots.Devices, Slots.Nodes, Slots.Available, Slots.HeldKeys;
      var desired := BuildTemplate(mc, b, DeviceClassOf(mc), boards);
      ghost var before, notes := templates, events.emitted;
      var stage, writes := ReconcileTemplate(mc, desired, api, server);
      ghost var notes' := events.emitted;
      SettledMeansNoWrite(before, mc, b, boards, desired, writes);
      if stage == Failing {
        return Report(api, CallFailed, Some(b), writes);
      }
      if stage == Conflicting {
        var ok := Fail(mc, TemplateConflict, Some(b), mc.name, "template not managed by this ModelClaim", api, now);
        NotesChain(notes, notes', events.emitted, mc);
        return Report(api, if ok then TemplateConflict else CallFailed, Some(b), writes);
      }
      assert Settled(templates, mc, b, boards);

      var c := Evaluate(mc, b, slices, claims);
      var (satStatus, satReason) := SatisfiableCondition(c);
      if ConditionReason(seen, SATISFIABLE) != satReason {
        Say(mc, satReason, satReason); // only when the reason changes
        NotesChain(notes, notes', events.emitted, mc);
      }
      var written := Succeed(mc, b, c, (b.model, satReason), api, now);
      return Report(api, if written then Done else CallFailed, Some(b), writes);
    }

    /** One reconcile of `mc` as the informer last saw it, with conditions `seen`;
        `answer` is what the resolver would say. */
    method Reconcile(mc: ModelClaim, seen: seq<Condition>, answer: Answer, now: int,
                     slices: seq<Slice>, claims: seq<ResourceClaim>, api: Api, server: Template -> Template)
      returns (r: Report)
      requires Valid()
      requires forall x :: Stores(x, server(x))
      modifies this`templates, this`statuses, cache, events
      ensures Valid() && NotesAdded(old(events.emitted), events.emitted, mc)
      ensures ReconcileStep(old(State()), State(), mc, boards, r) && r.api == api
      // Validation: an invalid reference never reaches the resolver.
      ensures !IsModelRef(mc.spec.model) ==>
                cache.calls == old(cache.calls) && r.bounds.None? && r.outcome in {InvalidModel, CallFailed}
      ensures r.outcome == InvalidModel ==> !IsModelRef(mc.spec.model)
      // Resolution: the bounds used are what the resolver said of this very spec.
      ensures AskedOnce(old(cache.calls), cache.calls, mc, answer, now)
      ensures cache.calls != old(cache.calls) ==> r.bounds == (if answer.Ok? then Some(answer.value) else None)
      ensures r.bounds.Some? ==> IsModelRef(mc.spec.model) && SaidOfSpec(cache.calls, mc, r.bounds.value, now)
      ensures IsModelRef(mc.spec.model) && answer.Ok? ==> r.bounds.Some?
      ensures IsModelRef(mc.spec.model) && r.bounds.None? ==> answer.Err? && r.outcome in {ResolveFailed, CallFailed}
      ensures r.outcome == ResolveFailed ==> IsModelRef(mc.spec.model) && r.bounds.None?
      ensures r.bounds.None? && api.status != StatusError ==> r.outcome != CallFailed
      ensures r.outcome == Done && api.status == StatusWritten && KeyOf(mc) in old(statuses) ==>
                && KeyOf(mc) in statuses && r.bounds.Some?
                && statuses[KeyOf(mc)].candidates == Some(Counts(mc, r.bounds.value, slices, claims))
    {
      hide IsModelRef, Settled, Stores, UniqueKinds, Coherent, Cache.Valid, Recorder.Valid, SameExcept, Counts;
      hide AsksFor, Said, SaidOfSpec, AskedOnce;
      NeverAsked(cache.calls, mc, answer, now);
      NothingMoves(templates, KeyOf(mc));
      if !IsModelRef(mc.spec.model) {
        var ok := Fail(mc, InvalidModel, None, "not a valid model reference: " + mc.spec.model, "model not resolved", api, now);
        return Report(api, if ok then InvalidModel else CallFailed, None, []);
      }
      ghost var before := cache.calls;
      var resolved := cache.Resolve(TupleOf(mc), now, answer);
      SpecAsked(before, cache.calls, mc, answer, now, resolved);
      if resolved.Err? {
        var ok := Fail(mc, ResolveFailed, None, resolved.error, "bounds unavailable while resolve fails", api, now);
        return Report(api, if ok then ResolveFailed else CallFailed, None, []);
      }
      r := Apply(mc, resolved.value, seen, now, slices, claims, api, server);
    }
  }

  /** A restarted controller, with nothing cached and no memory of events, moves the
      world it finds by the same relation: restarts need no care. */
  method RestartAndReconcile(boards: BoardTable, w: World, mc: ModelClaim, seen: seq<Condition>, answer: Answer, now: int,
                             slices: seq<Slice>, claims: seq<ResourceClaim>, api: Api, server: Template -> Template)
    returns (c: Controller, r: Report)
    requires forall k :: k in w.statuses ==> UniqueKinds(w.statuses[k].conditions)
    requires forall x :: Stores(x, server(x))
    ensures fresh(c) && fresh(c.cache) && fresh(c.events) && c.Valid()
    ensures ReconcileStep(w, c.State(), mc, boards, r) && r.api == api
    ensures IsModelRef(mc.spec.model) ==> r.bounds == (if answer.Ok? then Some(answer.value) else None)
  {
    hide IsModelRef, Stores, UniqueKinds, Cache.Valid, Recorder.Valid, ReconcileStep;
    c := new Controller(boards, w.templates, w.statuses);
    r := c.Reconcile(mc, seen, answer, now, slices, claims, api, server);
  }

  lemma NeverAsked(calls: seq<Call>, mc: ModelClaim, answer: Answer, now: int)
    ensures AskedOnce(calls, calls, mc, answer, now)
  {
  }

  lemma SpecAsked(before: seq<Call>, after: seq<Call>, mc: ModelClaim, answer: Answer, now: int, resolved: Answer)
    requires after == before || after == before + [Call(TupleOf(mc), now, answer)]
    requires resolved.Ok? ==> Said(after, TupleOf(mc), resolved.value, now)
    ensures AskedOnce(before, after, mc, answer, now)
    ensures resolved.Ok? ==> SaidOfSpec(after, mc, resolved.value, now)
  {
    TupleAsksFor(mc, Call(TupleOf(mc), now, answer));
    if resolved.Ok? {
      var c :| c in after && c.tuple == TupleOf(mc) && c.answer == Ok(resolved.value) && now < c.at + TTL;
      TupleAsksFor(mc, c);
    }
  }

  lemma CoherentIsUnique(s: Status)
    ensures Coherent(s) ==> UniqueKinds(s.conditions)
  {
  }

  lemma NothingMoves<V>(w: map<ObjectKey, V>, k: ObjectKey)
    ensures SameExcept(w, w, k)
  {
  }

  lemma PutMoves(w: map<ObjectKey, Template>, k: ObjectKey, x: Template)
    ensures SameExcept(w, w[k := x], k)
  {
  }

  lemma DropMoves(w: map<ObjectKey, Template>, k: ObjectKey)
    ensures SameExcept(w, w - {k}, k)
  {
  }

  lemma StoredKeepsController(written: Template, stored: Template, mc: ModelClaim)
    requires Stores(written, stored) && ControlledBy(written, mc)
    ensures ControlledBy(stored, mc)
  {
  }

  lemma SettledMeansNoWrite(w: map<ObjectKey, Template>, mc: ModelClaim, b: Bounds, t: BoardTable, desired: Template, writes: seq<Write>)
    requires IsDesired(mc, b, DeviceClassOf(mc), t, desired)
    requires KeyOf(mc) in w && ControlledBy(w[KeyOf(mc)], mc) && Agrees(w[KeyOf(mc)], desired) ==> writes == []
    ensures Settled(w, mc, b, t) ==> writes == []
  {
    hide IsDesired, Agrees;
    if Settled(w, mc, b, t) {
      var d :| IsDesired(mc, b, DeviceClassOf(mc), t, d) && Agrees(w[KeyOf(mc)], d);
      DesiredUnique(mc, b, DeviceClassOf(mc), t, d, desired);
    }
  }

  // ---- What the recorded count is a count of ---------------------------------------------------

  /** The expression in the first selector of the claim's live template. */
  ghost predicate Carries(templates: map<ObjectKey, Template>, mc: ModelClaim, e: Cel.Expr) {
    && KeyOf(mc) in templates
    && |templates[KeyOf(mc)].requests| == 1
    && templates[KeyOf(mc)].requests[0].exactly.Some?
    && |templates[KeyOf(mc)].requests[0].exactly.value.selectors| > 0
    && templates[KeyOf(mc)].requests[0].exactly.value.selectors[0].cel == Some(Emitted(e))
  }

  /** The class a claim asks for; llmfit.ai when it names none. */
  function ClassAsked(mc: ModelClaim): string {
    if mc.spec.deviceClass == "" then "llmfit.ai" else mc.spec.deviceClass
  }

  lemma SettledCarries(templates: map<ObjectKey, Template>, mc: ModelClaim, b: Bounds, t: BoardTable) returns (e: Cel.Expr)
    requires Settled(templates, mc, b, t)
    ensures Carries(templates, mc, e) && IsFit(mc, b, ClassAsked(mc), t, e)
    ensures templates[KeyOf(mc)].requests[0].exactly.value.deviceClass == ClassAsked(mc)
  {
    hide NvidiaFit.IsNvidiaFit, LlmfitFit.FitCEL, LabelValue, Extras;
    var desired :| IsDesired(mc, b, DeviceClassOf(mc), t, desired) && Agrees(templates[KeyOf(mc)], desired);
    e :| IsFit(mc, b, DeviceClassOf(mc), t, e) && desired == Rendered(mc, b, DeviceClassOf(mc), t, e);
  }

  /** The count a reconcile records is the number of devices that the generated selector
      in the claim's live template selects, together with its class's own selector
      under the shipped classes of the llmfit backend. */
  lemma CountIsWhatTheTemplateSelects(templates: map<ObjectKey, Template>, mc: ModelClaim, b: Bounds, t: BoardTable, slices: seq<Slice>)
    returns (e: Cel.Expr)
    requires Settled(templates, mc, b, t)
    ensures Carries(templates, mc, e)
    ensures var count := Slots.Devices(QueryOf(mc, b, t), slices);
            && (WantsNvidia(mc, ClassAsked(mc)) && "" !in t.boards && b.memoryGi >= 1 ==>
                  count == |Agreement.Selected(e, "gpu.nvidia.com", slices)|)
            && (!WantsNvidia(mc, ClassAsked(mc)) && !LlmfitFit.ShippedComputeClass(ClassAsked(mc)) ==>
                  count == |Agreement.Selected(e, "llmfit.ai", slices)|)
            && (!WantsNvidia(mc, ClassAsked(mc)) && LlmfitFit.ShippedComputeClass(ClassAsked(mc)) && Agreement.AllPublished(slices) ==>
                  count == |Agreement.Selected(Cel.And(LlmfitFit.ClassCEL(ClassAsked(mc)), e), "llmfit.ai", slices)|)
  {
    hide Settled, Slots.Devices, Agreement.Selected, Agreement.AllPublished, NvidiaFit.IsNvidiaFit, LlmfitFit.FitCEL, LlmfitFit.ClassCEL, Carries;
    e := SettledCarries(templates, mc, b, t);
    var c := ClassAsked(mc);
    if WantsNvidia(mc, c) {
      if "" !in t.boards && b.memoryGi >= 1 {
        Agreement.NvidiaCountIsSelection(t, b, c, FloorOf(mc), e, slices);
      }
    } else if !LlmfitFit.ShippedComputeClass(c) {
      Agreement.CustomClassCountIsSelection(b, c, FloorOf(mc), slices);
    } else if Agreement.AllPublished(slices) {
      Agreement.LlmfitCountIsSelection(b, c, FloorOf(mc), slices);
    }
  }

  // ---- Whole runs ------------------------------------------------------------------------------

  /** Anything that can happen to the world between two observations. */
  datatype Action =
    | Reconciled(mc: ModelClaim, r: Report)
    | TemplateEdited(key: ObjectKey)   // someone else creates, edits or deletes a template
    | ClaimCreated(key: ObjectKey)     // a claim appears, or is recreated, with no status
    | ClaimDeleted(key: ObjectKey)
    | TimePasses

  ghost predicate Happens(w: World, w': World, a: Action, t: BoardTable) {
    match a
    case Reconciled(mc, r) => ReconcileStep(w, w', mc, t, r)
    case TemplateEdited(key) => w'.statuses == w.statuses && SameExcept(w.templates, w'.templates, key)
    case ClaimCreated(key) => w' == w.(statuses := w.statuses[key := NO_STATUS])
    case ClaimDeleted(key) => w' == w.(statuses := w.statuses - {key})
    case TimePasses => w' == w
  }

  ghost predicate IsRun(worlds: seq<World>, actions: seq<Action>, t: BoardTable) {
    && |worlds| == |actions| + 1
    && forall i :: 0 <= i < |actions| ==> Happens(worlds[i], worlds[i + 1], actions[i], t)
  }

  lemma RunPrefix(worlds: seq<World>, actions: seq<Action>, t: BoardTable)
    requires IsRun(worlds, actions, t) && actions != []
    ensures IsRun(worlds[..|actions|], actions[..|actions| - 1], t)
    ensures Happens(worlds[|actions| - 1], worlds[|actions|], actions[|actions| - 1], t)
  {
    hide Happens;
    var ws, acts := worlds[..|actions|], actions[..|actions| - 1];
    forall i | 0 <= i < |acts|
      ensures Happens(ws[i], ws[i + 1], acts[i], t)
    {
      assert Happens(worlds[i], worlds[i + 1], actions[i], t);
    }
  }

  ghost predicate AllCoherent(w: World) {
    forall k :: k in w.statuses ==> Coherent(w.statuses[k])
  }

  /** In every reachable state, every status is coherent. */
  lemma {:induction false} StatusesStayCoherent(worlds: seq<World>, actions: seq<Action>, t: BoardTable)
    requires IsRun(worlds, actions, t) && AllCoherent(worlds[0])
    ensures AllCoherent(worlds[|actions|])
  {
    if actions != [] {
      var n := |actions| - 1;
      RunPrefix(worlds, actions, t);
      StatusesStayCoherent(worlds[..n + 1], actions[..n], t);
      assert AllCoherent(worlds[n]);
      CoherentStep(worlds[n], worlds[n + 1], actions[n], t);
    }
  }

  lemma CoherentStep(w: World, w': World, a: Action, t: BoardTable)
    requires Happens(w, w', a, t) && AllCoherent(w)
    ensures AllCoherent(w')
  {
    hide Settled, TemplatesMove, Foreign;
    assert Coherent(NO_STATUS);
    if a.Reconciled? {
      var k := KeyOf(a.mc);
      assert StatusesMove(w.statuses, w'.statuses, a.mc, a.r);
      forall x | x in w'.statuses
        ensures Coherent(w'.statuses[x])
      {
        assert x == k || w'.statuses[x] == w.statuses[x];
      }
    }
  }

  /** Whoever else controls a template keeps it: no sequence of reconciles, of this
      or any other claim, ever changes a template that no reconciled claim of that
      name controls. */
  lemma {:induction false} ForeignTemplateSurvives(worlds: seq<World>, actions: seq<Action>, t: BoardTable, k: ObjectKey)
    requires IsRun(worlds, actions, t) && k in worlds[0].templates
    requires forall i :: 0 <= i < |actions| ==>
      && actions[i] != TemplateEdited(k)
      && (actions[i].Reconciled? && KeyOf(actions[i].mc) == k ==> worlds[0].templates[k].controller != Some(actions[i].mc.uid))
    ensures k in worlds[|actions|].templates && worlds[|actions|].templates[k] == worlds[0].templates[k]
  {
    if actions != [] {
      var n := |actions| - 1;
      RunPrefix(worlds, actions, t);
      ForeignTemplateSurvives(worlds[..n + 1], actions[..n], t, k);
      KeepsForeign(worlds[n], worlds[n + 1], actions[n], t, k);
    }
  }

  lemma KeepsForeign(w: World, w': World, a: Action, t: BoardTable, k: ObjectKey)
    requires Happens(w, w', a, t) && k in w.templates && a != TemplateEdited(k)
    requires a.Reconciled? && KeyOf(a.mc) == k ==> !ControlledBy(w.templates[k], a.mc)
    ensures k in w'.templates && w'.templates[k] == w.templates[k]
  {
    hide Settled, StatusesMove;
    if a.Reconciled? {
      assert TemplatesMove(w.templates, w'.templates, a.mc, a.r.writes);
    }
  }

  lemma FailureStep(w: World, w': World, mc: ModelClaim, t: BoardTable, r: Report)
    requires ReconcileStep(w, w', mc, t, r) && Withdraws(r.outcome)
    ensures w'.templates == w.templates
  {
    hide Settled, StatusesMove;
    assert TemplatesMove(w.templates, w'.templates, mc, r.writes);
  }

  ghost predicate SameAt(a: map<ObjectKey, Template>, c: map<ObjectKey, Template>, k: ObjectKey) {
    (k in a <==> k in c) && (k in a && k in c ==> a[k] == c[k])
  }

  /** However long a claim keeps failing to validate, to resolve or to own, and
      whatever other claims do meanwhile, the template of its name stays as it was,
      present or absent. */
  lemma {:induction false} FailuresLeaveTemplate(worlds: seq<World>, actions: seq<Action>, t: BoardTable, k: ObjectKey)
    requires IsRun(worlds, actions, t)
    requires forall i :: 0 <= i < |actions| ==>
      && actions[i] != TemplateEdited(k)
      && (actions[i].Reconciled? && KeyOf(actions[i].mc) == k ==> Withdraws(actions[i].r.outcome))
    ensures SameAt(worlds[0].templates, worlds[|actions|].templates, k)
  {
    if actions != [] {
      var n := |actions| - 1;
      RunPrefix(worlds, actions, t);
      FailuresLeaveTemplate(worlds[..n + 1], actions[..n], t, k);
      assert worlds[..n + 1][n] == worlds[n];
      FailedStepKeeps(worlds[n], worlds[n + 1], actions[n], t, k);
    }
  }

  lemma FailedStepKeeps(w: World, w': World, a: Action, t: BoardTable, k: ObjectKey)
    requires Happens(w, w', a, t) && a != TemplateEdited(k)
    requires a.Reconciled? && KeyOf(a.mc) == k ==> Withdraws(a.r.outcome)
    ensures SameAt(w.templates, w'.templates, k)
  {
    hide Settled, StatusesMove;
    if a.Reconciled? {
      assert TemplatesMove(w.templates, w'.templates, a.mc, a.r.writes);
      if KeyOf(a.mc) == k {
        FailureStep(w, w', a.mc, t, a.r);
      }
    }
  }

  /** The same claim, whatever generation the informer showed. */
  predicate SameClaim(x: ModelClaim, y: ModelClaim) {
    x.(generation := y.generation) == y
  }

  lemma DesiredForSameClaim(x: ModelClaim, y: ModelClaim, b: Bounds, t: BoardTable, desired: Template)
    requires SameClaim(x, y) && IsDesired(x, b, DeviceClassOf(x), t, desired)
    ensures IsDesired(y, b, DeviceClassOf(y), t, desired)
  {
    var e :| IsFit(x, b, DeviceClassOf(x), t, e) && desired == Rendered(x, b, DeviceClassOf(x), t, e);
    assert IsFit(y, b, DeviceClassOf(y), t, e) && desired == Rendered(y, b, DeviceClassOf(y), t, e);
  }

  lemma SettledForSameClaim(templates: map<ObjectKey, Template>, x: ModelClaim, y: ModelClaim, b: Bounds, t: BoardTable)
    requires SameClaim(x, y) && Settled(templates, x, b, t)
    ensures Settled(templates, y, b, t)
  {
    hide Agrees;
    var desired :| IsDesired(x, b, DeviceClassOf(x), t, desired) && Agrees(templates[KeyOf(x)], desired);
    DesiredForSameClaim(x, y, b, t, desired);
  }

  /** Nothing but reconciles of the same claim under the same bounds touches its template. */
  ghost predicate Undisturbed(actions: seq<Action>, mc: ModelClaim, b: Bounds) {
    forall i :: 0 <= i < |actions| ==>
      && actions[i] != TemplateEdited(KeyOf(mc))
      && (actions[i].Reconciled? && KeyOf(actions[i].mc) == KeyOf(mc) ==>
            SameClaim(mc, actions[i].mc) && (actions[i].r.bounds.Some? ==> actions[i].r.bounds.value == b))
  }

  lemma SettledIsPresent(templates: map<ObjectKey, Template>, mc: ModelClaim, b: Bounds, t: BoardTable)
    requires Settled(templates, mc, b, t)
    ensures KeyOf(mc) in templates
  {
  }

  /** And once settled it stays settled without a single further template write,
      however often the claim is reconciled and whatever fails meanwhile. */
  lemma {:induction false} SettledStaysQuiet(worlds: seq<World>, actions: seq<Action>, t: BoardTable, mc: ModelClaim, b: Bounds)
    requires IsRun(worlds, actions, t) && Settled(worlds[0].templates, mc, b, t) && Undisturbed(actions, mc, b)
    ensures Settled(worlds[|actions|].templates, mc, b, t)
    ensures KeyOf(mc) in worlds[0].templates && KeyOf(mc) in worlds[|actions|].templates
    ensures worlds[|actions|].templates[KeyOf(mc)] == worlds[0].templates[KeyOf(mc)]
    ensures forall i :: 0 <= i < |actions| && actions[i].Reconciled? && KeyOf(actions[i].mc) == KeyOf(mc) ==> actions[i].r.writes == []
  {
    hide Settled, Happens;
    SettledIsPresent(worlds[0].templates, mc, b, t);
    if actions != [] {
      var n := |actions| - 1;
      RunPrefix(worlds, actions, t);
      SettledStaysQuiet(worlds[..n + 1], actions[..n], t, mc, b);
      forall i | 0 <= i < n
        ensures actions[..n][i] == actions[i]
      {
      }
      assert worlds[..n + 1][n] == worlds[n];
      QuietStep(worlds[n], worlds[n + 1], actions[n], t, mc, b);
    }
  }

  /** Convergence over runs: whatever led up to action `n`, a template deleted and
      not recreated included, if that action is a reconcile without a failing call,
      of a claim that resolves and whose name no one else has taken, then the
      template is settled in every later world, and no later reconcile of the claim
      under the same bounds writes it again. */
  lemma ReconcileConverges(worlds: seq<World>, actions: seq<Action>, t: BoardTable, n: nat, mc: ModelClaim, b: Bounds, i: nat)
    requires IsRun(worlds, actions, t) && n < i < |worlds|
    requires actions[n].Reconciled? && actions[n].mc == mc && actions[n].r.bounds == Some(b)
    requires Smooth(actions[n].r.api) && !Foreign(worlds[n].templates, mc)
    requires Undisturbed(actions[n + 1..], mc, b)
    ensures actions[n].r.outcome == Done
    ensures Settled(worlds[i].templates, mc, b, t)
    ensures i < |actions| && actions[i].Reconciled? && KeyOf(actions[i].mc) == KeyOf(mc) ==> actions[i].r.writes == []
  {
    hide Settled, StatusesMove, TemplatesMove;
    assert Happens(worlds[n], worlds[n + 1], actions[n], t);
    assert Settled(worlds[n + 1].templates, mc, b, t);
    QuietAfter(worlds, actions, t, n + 1, mc, b, i);
  }

  /** The part of a run between worlds `m` and `i`, and one action more if there is one. */
  lemma QuietAfter(worlds: seq<World>, actions: seq<Action>, t: BoardTable, m: nat, mc: ModelClaim, b: Bounds, i: nat)
    requires IsRun(worlds, actions, t) && m <= i < |worlds|
    requires Settled(worlds[m].templates, mc, b, t) && Undisturbed(actions[m..], mc, b)
    ensures Settled(worlds[i].templates, mc, b, t)
    ensures i < |actions| && actions[i].Reconciled? && KeyOf(actions[i].mc) == KeyOf(mc) ==> actions[i].r.writes == []
  {
    hide Settled, Happens;
    var rest := actions[m..];
    RunPart(worlds, actions, t, m, i);
    var now := actions[m..i];
    assert forall x :: 0 <= x < |now| ==> now[x] == rest[x];
    SettledStaysQuiet(worlds[m..i + 1], now, t, mc, b);
    if i < |actions| {
      RunPart(worlds, actions, t, m, i + 1);
      var part := actions[m..i + 1];
      assert forall x :: 0 <= x < |part| ==> part[x] == rest[x];
      SettledStaysQuiet(worlds[m..i + 2], part, t, mc, b);
      assert part[i - m] == actions[i];
    }
  }

  lemma RunPart(worlds: seq<World>, actions: seq<Action>, t: BoardTable, m: nat, i: nat)
    requires IsRun(worlds, actions, t) && m <= i <= |actions|
    ensures IsRun(worlds[m..i + 1], actions[m..i], t)
  {
    hide Happens;
    var ws, acts := worlds[m..i + 1], actions[m..i];
    forall x | 0 <= x < |acts|
      ensures Happens(ws[x], ws[x + 1], acts[x], t)
    {
      assert Happens(worlds[m + x], worlds[m + x + 1], actions[m + x], t);
    }
  }

  lemma QuietStep(w: World, w': World, a: Action, t: BoardTable, mc: ModelClaim, b: Bounds)
    requires Happens(w, w', a, t) && Settled(w.templates, mc, b, t) && Undisturbed([a], mc, b)
    ensures Settled(w'.templates, mc, b, t)
    ensures KeyOf(mc) in w.templates && KeyOf(mc) in w'.templates
    ensures w'.templates[KeyOf(mc)] == w.templates[KeyOf(mc)]
    ensures a.Reconciled? && KeyOf(a.mc) == KeyOf(mc) ==> a.r.writes == []
  {
    hide StatusesMove, IsDesired, Agrees;
    assert [a][0] == a;
    if a.Reconciled? {
      assert TemplatesMove(w.templates, w'.templates, a.mc, a.r.writes);
      if KeyOf(a.mc) == KeyOf(mc) && a.r.bounds.Some? {
        SettledForSameClaim(w.templates, mc, a.mc, b, t);
      }
    }
    var desired :| IsDesired(mc, b, DeviceClassOf(mc), t, desired) && Agrees(w.templates[KeyOf(mc)], desired);
    assert w'.templates[KeyOf(mc)] == w.templates[KeyOf(mc)];
  }
}
