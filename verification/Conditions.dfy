/** Status conditions of a ModelClaim (internal/modelclaim/controller.go). */
module Conditions {
  import opened Prelude
  import opened Resources
  import opened Tally

  datatype CondStatus = IsTrue | IsFalse | IsUnknown

  datatype Condition = Condition(
    kind: string, status: CondStatus, reason: string, message: string, generation: nat, since: int)

  datatype Status = Status(
    observedGeneration: nat,
    resolved: Option<Bounds>,
    templateRef: Option<string>,
    candidates: Option<(nat, nat, nat)>,
    conditions: seq<Condition>)

  const NO_STATUS: Status := Status(0, None, None, None, [])

  const RESOLVED := "Resolved"
  const SATISFIABLE := "Satisfiable"

  // ---- Upserting one condition -----------------------------------------------------

  ghost predicate FirstOf(cs: seq<Condition>, kind: string, i: nat) {
    i < |cs| && cs[i].kind == kind && forall k :: 0 <= k < i ==> cs[k].kind != kind
  }

  ghost predicate NoneOf(cs: seq<Condition>, kind: string) {
    forall k :: 0 <= k < |cs| ==> cs[k].kind != kind
  }

  /** The first condition of that kind. */
  function Find(cs: seq<Condition>, kind: string): Option<Condition> {
    if cs == [] then None
    else if cs[0].kind == kind then Some(cs[0])
    else Find(cs[1..], kind)
  }

  /** Its status, unknown when absent. */
  function StatusOf(cs: seq<Condition>, kind: string): CondStatus {
    if Find(cs, kind).Some? then Find(cs, kind).value.status else IsUnknown
  }

  /** Its reason, empty when absent. */
  function ConditionReason(cs: seq<Condition>, kind: string): string {
    if Find(cs, kind).Some? then Find(cs, kind).value.reason else ""
  }

  lemma {:induction false} FindIsFirst(cs: seq<Condition>, kind: string)
    ensures forall i: nat :: FirstOf(cs, kind, i) ==> Find(cs, kind) == Some(cs[i])
    ensures NoneOf(cs, kind) ==> Find(cs, kind) == None
    ensures NoneOf(cs, kind) || exists i: nat :: FirstOf(cs, kind, i)
  {
    if cs != [] && cs[0].kind != kind {
      var rest := cs[1..];
      FindIsFirst(rest, kind);
      forall i: nat | FirstOf(cs, kind, i)
        ensures Find(cs, kind) == Some(cs[i])
      {
        assert FirstOf(rest, kind, i - 1);
      }
      if !NoneOf(rest, kind) {
        var j: nat :| FirstOf(rest, kind, j);
        var i := j + 1;
        assert forall k :: 0 < k < i ==> cs[k] == rest[k - 1];
        assert FirstOf(cs, kind, i);
      }
    } else if cs != [] {
      assert FirstOf(cs, kind, 0);
    }
  }

  ghost predicate UniqueKinds(cs: seq<Condition>) {
    forall i, j :: 0 <= i < j < |cs| ==> cs[i].kind != cs[j].kind
  }

  /** `c` with the transition time it keeps from the condition it replaces. */
  function Since(cs: seq<Condition>, c: Condition): Condition {
    if Find(cs, c.kind).Some? && Find(cs, c.kind).value.status == c.status
    then c.(since := Find(cs, c.kind).value.since)
    else c
  }

  /** Replaces the condition of that kind, or appends it. The transition time moves
      only when the status changes, and no other kind is disturbed. */
  method SetCondition(cs: seq<Condition>, c: Condition) returns (out: seq<Condition>)
    ensures forall i: nat :: FirstOf(cs, c.kind, i) ==> out == cs[i := Since(cs, c)]
    ensures NoneOf(cs, c.kind) ==> out == cs + [c]
    ensures UniqueKinds(cs) ==> UniqueKinds(out)
    ensures Find(out, c.kind) == Some(Since(cs, c))
    ensures forall kind :: kind != c.kind ==> Find(out, kind) == Find(cs, kind)
  {
    FindIsFirst(cs, c.kind);
    for i := 0 to |cs|
      invariant forall k :: 0 <= k < i ==> cs[k].kind != c.kind
    {
      if cs[i].kind == c.kind {
        var merged := c.(since := if cs[i].status == c.status then cs[i].since else c.since);
        assert FirstOf(cs, c.kind, i);
        out := cs[i := merged];
        UpdatedFinds(cs, i, merged);
        return;
      }
    }
    out := cs + [c];
    AppendedFinds(cs, c);
  }

  lemma UpdatedFinds(cs: seq<Condition>, i: nat, c: Condition)
    requires FirstOf(cs, c.kind, i)
    ensures Find(cs[i := c], c.kind) == Some(c)
    ensures forall kind :: kind != c.kind ==> Find(cs[i := c], kind) == Find(cs, kind)
  {
    FindIsFirst(cs[i := c], c.kind);
    assert FirstOf(cs[i := c], c.kind, i);
    forall kind | kind != c.kind
      ensures Find(cs[i := c], kind) == Find(cs, kind)
    {
      OtherKept(cs, i, c, kind);
    }
  }

  lemma OtherKept(cs: seq<Condition>, i: nat, c: Condition, kind: string)
    requires i < |cs| && cs[i].kind == c.kind && kind != c.kind
    ensures Find(cs[i := c], kind) == Find(cs, kind)
  {
    var out := cs[i := c];
    FindIsFirst(cs, kind);
    FindIsFirst(out, kind);
    if NoneOf(cs, kind) {
      assert NoneOf(out, kind);
    } else {
      var j: nat :| FirstOf(cs, kind, j);
      assert FirstOf(out, kind, j);
    }
  }

  lemma AppendedFinds(cs: seq<Condition>, c: Condition)
    requires NoneOf(cs, c.kind)
    ensures Find(cs + [c], c.kind) == Some(c)
    ensures forall kind :: kind != c.kind ==> Find(cs + [c], kind) == Find(cs, kind)
  {
    var out := cs + [c];
    FindIsFirst(out, c.kind);
    assert FirstOf(out, c.kind, |cs|);
    forall kind | kind != c.kind
      ensures Find(out, kind) == Find(cs, kind)
    {
      FindIsFirst(cs, kind);
      FindIsFirst(out, kind);
      if NoneOf(cs, kind) {
        assert NoneOf(out, kind);
      } else {
        var j: nat :| FirstOf(cs, kind, j);
        assert FirstOf(out, kind, j);
      }
    }
  }

  // ---- The two verdicts a reconcile writes ---------------------------------------------

  /** Each kind once; resolved exactly when a satisfiability verdict stands; and a
      standing verdict is positive exactly when the recorded count is. */
  ghost predicate Coherent(s: Status) {
    var sat := StatusOf(s.conditions, SATISFIABLE);
    && UniqueKinds(s.conditions)
    && (StatusOf(s.conditions, RESOLVED) == IsTrue <==> sat != IsUnknown)
    && (sat != IsUnknown ==> s.candidates.Some? && (sat == IsTrue <==> s.candidates.value.0 > 0))
  }

  /** Both verdicts withdrawn for this reason, at this generation. */
  ghost predicate FailedFor(s: Status, generation: nat, reason: string) {
    var r, sat := Find(s.conditions, RESOLVED), Find(s.conditions, SATISFIABLE);
    && r.Some? && r.value.status == IsFalse && r.value.reason == reason && r.value.generation == generation
    && sat.Some? && sat.value.status == IsUnknown && sat.value.reason == reason && sat.value.generation == generation
  }

  /** Both verdicts standing, Satisfiable as the recorded counts say. */
  ghost predicate ResolvedAs(s: Status, generation: nat, name: string, b: Bounds, c: Snapshot) {
    var r, sat := Find(s.conditions, RESOLVED), Find(s.conditions, SATISFIABLE);
    && r.Some? && r.value.status == IsTrue && r.value.reason == "Resolved" && r.value.generation == generation
    && sat.Some? && (sat.value.status, sat.value.reason) == SatisfiableCondition(c) && sat.value.generation == generation
    && s.candidates == Some((c.devices, c.nodes, c.available))
    && s.resolved == Some(b) && s.templateRef == Some(name) && s.observedGeneration == generation
  }

  /** A failed reconcile withdraws both verdicts and touches nothing else. */
  method MarkFailed(s: Status, generation: nat, reason: string, why: string, what: string, now: int) returns (out: Status)
    requires UniqueKinds(s.conditions)
    ensures Coherent(out)
    ensures FailedFor(out, generation, reason)
    ensures out == s.(conditions := out.conditions)
  {
    var cs := SetCondition(s.conditions, Condition(RESOLVED, IsFalse, reason, why, generation, now));
    cs := SetCondition(cs, Condition(SATISFIABLE, IsUnknown, reason, what, generation, now));
    out := s.(conditions := cs);
  }

  /** Maps a snapshot to the Satisfiable tuple: fits and free, fits but all held, or
      nothing fits. */
  function SatisfiableCondition(c: Snapshot): (r: (CondStatus, string))
    ensures r.0 == IsTrue <==> c.devices > 0
    ensures r.0 != IsUnknown
    ensures r.1 == "DevicesAvailable" <==> c.devices > 0 && c.available > 0
    ensures r.1 == "AllDevicesHeld" <==> c.devices > 0 && c.available == 0
    ensures r.1 == "NoCandidates" <==> c.devices == 0
  {
    if c.devices > 0 && c.available > 0 then (IsTrue, "DevicesAvailable")
    else if c.devices > 0 then (IsTrue, "AllDevicesHeld")
    else (IsFalse, "NoCandidates")
  }

  method MarkResolved(s: Status, generation: nat, name: string, b: Bounds, c: Snapshot, messages: (string, string), now: int)
    returns (out: Status)
    requires UniqueKinds(s.conditions)
    ensures Coherent(out)
    ensures ResolvedAs(out, generation, name, b, c)
  {
    var (status, reason) := SatisfiableCondition(c);
    var cs := SetCondition(s.conditions, Condition(RESOLVED, IsTrue, "Resolved", messages.0, generation, now));
    cs := SetCondition(cs, Condition(SATISFIABLE, status, reason, messages.1, generation, now));
    out := Status(generation, Some(b), Some(name), Some((c.devices, c.nodes, c.available)), cs);
  }
}
