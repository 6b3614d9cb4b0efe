/** The advisory evaluations as the source runs them: nested loops over slices
    and devices, proved to compute the snapshot that Slots and Tally define
    (internal/modelclaim/satisfiable.go, internal/modelclaim/satisfiable_nvidia.go). */
module Satisfiable {
  import opened Prelude
  import opened Resources
  import opened Slots
  import opened Tally
  import LlmfitFit
  import NvidiaFit

  // ---- Inputs --------------------------------------------------------------------

  /** One of the first `n` allocation results of the claim is device `k` of the driver. */
  ghost predicate Uses(c: ResourceClaim, n: nat, driver: string, k: string) {
    c.allocation.Some? &&
    exists j :: 0 <= j < n && j < |c.allocation.value| && IsUse(c.allocation.value[j], driver, k)
  }

  predicate IsUse(r: Allocation, driver: string, k: string) {
    r.driver == driver && DeviceKey(r.pool, r.device) == k
  }

  /** Claim `a` is one of the first `i`, or is claim `i` by one of its first `j` results, and uses `k`. */
  ghost predicate UsesUpTo(claims: seq<ResourceClaim>, i: nat, j: nat, driver: string, k: string, a: nat)
    requires i <= |claims|
  {
    (a < i && Uses(claims[a], ResultCount(claims[a]), driver, k)) || (a == i < |claims| && Uses(claims[i], j, driver, k))
  }

  ghost function ResultCount(c: ResourceClaim): nat {
    if c.allocation.Some? then |c.allocation.value| else 0
  }

  /** `held` names, for each device used so far, the last claim that uses it. */
  ghost predicate HeldUpTo(claims: seq<ResourceClaim>, i: nat, j: nat, driver: string, held: map<string, string>)
    requires i <= |claims|
  {
    && (forall k, a: nat :: UsesUpTo(claims, i, j, driver, k, a) ==> k in held)
    && (forall k :: k in held ==> exists a: nat :: LastUser(claims, i, j, driver, k, a) && held[k] == HolderName(claims[a]))
  }

  ghost predicate LastUser(claims: seq<ResourceClaim>, i: nat, j: nat, driver: string, k: string, a: nat)
    requires i <= |claims|
  {
    && a < |claims|
    && UsesUpTo(claims, i, j, driver, k, a)
    && forall e: nat :: UsesUpTo(claims, i, j, driver, k, e) ==> e <= a
  }

  /** Maps each device of the driver that an allocated claim holds to its holder. */
  method AllocatedDevices(claims: seq<ResourceClaim>, driver: string) returns (held: map<string, string>)
    ensures held.Keys == HeldKeys(claims, driver)
    ensures HeldUpTo(claims, |claims|, 0, driver, held)
    ensures forall k :: k in held ==> held[k] != ""
  {
    held := map[];
    for i := 0 to |claims|
      invariant HeldUpTo(claims, i, 0, driver, held)
    {
      var rc := claims[i];
      if rc.allocation.Some? {
        var results := rc.allocation.value;
        for j := 0 to |results|
          invariant HeldUpTo(claims, i, j, driver, held)
        {
          ghost var before := held;
          if results[j].driver == driver {
            held := held[DeviceKey(results[j].pool, results[j].device) := HolderName(rc)];
          }
          HeldStep(claims, i, j, driver, before, held);
        }
      }
      HeldCarries(claims, i, driver, held);
    }
    HeldMeansUsed(claims, driver, held);
  }

  lemma HeldStep(claims: seq<ResourceClaim>, i: nat, j: nat, driver: string, before: map<string, string>, after: map<string, string>)
    requires i < |claims| && claims[i].allocation.Some? && j < |claims[i].allocation.value|
    requires HeldUpTo(claims, i, j, driver, before)
    requires var r := claims[i].allocation.value[j];
             after == if r.driver == driver then before[DeviceKey(r.pool, r.device) := HolderName(claims[i])] else before
    ensures HeldUpTo(claims, i, j + 1, driver, after)
  {
    hide Uses;
    var r := claims[i].allocation.value[j];
    var n := j + 1;
    forall k, a: nat
      ensures UsesUpTo(claims, i, n, driver, k, a) <==>
        (UsesUpTo(claims, i, j, driver, k, a) || (a == i && IsUse(r, driver, k)))
    {
      UsesOneMore(claims[i], j, driver, k);
    }
    forall k | k in after
      ensures exists a: nat :: LastUser(claims, i, n, driver, k, a) && after[k] == HolderName(claims[a])
    {
      if IsUse(r, driver, k) {
        assert LastUser(claims, i, n, driver, k, i);
      } else {
        var a: nat :| LastUser(claims, i, j, driver, k, a) && before[k] == HolderName(claims[a]);
        assert LastUser(claims, i, n, driver, k, a);
      }
    }
  }

  lemma UsesOneMore(c: ResourceClaim, j: nat, driver: string, k: string)
    requires c.allocation.Some? && j < |c.allocation.value|
    ensures Uses(c, j + 1, driver, k) <==> Uses(c, j, driver, k) || IsUse(c.allocation.value[j], driver, k)
  {
  }

  lemma HeldCarries(claims: seq<ResourceClaim>, i: nat, driver: string, held: map<string, string>)
    requires i < |claims| && HeldUpTo(claims, i, ResultCount(claims[i]), driver, held)
    ensures HeldUpTo(claims, i + 1, 0, driver, held)
  {
    var n, next := ResultCount(claims[i]), i + 1;
    forall k, a: nat
      ensures UsesUpTo(claims, next, 0, driver, k, a) <==> UsesUpTo(claims, i, n, driver, k, a)
    {
      assert next < |claims| ==> !Uses(claims[next], 0, driver, k);
    }
    forall k | k in held
      ensures exists a: nat :: LastUser(claims, next, 0, driver, k, a) && held[k] == HolderName(claims[a])
    {
      var a: nat :| LastUser(claims, i, n, driver, k, a) && held[k] == HolderName(claims[a]);
      assert LastUser(claims, next, 0, driver, k, a);
    }
  }

  lemma HeldMeansUsed(claims: seq<ResourceClaim>, driver: string, held: map<string, string>)
    requires HeldUpTo(claims, |claims|, 0, driver, held)
    ensures held.Keys == HeldKeys(claims, driver)
    ensures forall k :: k in held ==> held[k] != ""
  {
    forall k | k in HeldKeys(claims, driver)
      ensures k in held
    {
      var c, r :| c in claims && c.allocation.Some? && r in c.allocation.value && r.driver == driver && DeviceKey(r.pool, r.device) == k;
      var a :| 0 <= a < |claims| && claims[a] == c;
      var j :| 0 <= j < |c.allocation.value| && c.allocation.value[j] == r;
      assert Uses(claims[a], ResultCount(claims[a]), driver, k);
      assert UsesUpTo(claims, |claims|, 0, driver, k, a);
    }
    forall k | k in held
      ensures k in HeldKeys(claims, driver) && held[k] != ""
    {
      var a: nat :| LastUser(claims, |claims|, 0, driver, k, a) && held[k] == HolderName(claims[a]);
      var c := claims[a];
      var j :| 0 <= j < |c.allocation.value| && IsUse(c.allocation.value[j], driver, k);
      assert c in claims && c.allocation.value[j] in c.allocation.value;
      assert |HolderName(c)| >= 1;
    }
  }

  ghost predicate GenBound(slices: seq<Slice>, n: nat, driver: string, m: map<string, nat>)
    requires n <= |slices|
  {
    && (forall i :: 0 <= i < n && slices[i].driver == driver ==> slices[i].generation <= GetOr(m, slices[i].pool, 0))
    && (forall p :: p in m ==>
          exists i :: 0 <= i < n && slices[i].driver == driver && slices[i].pool == p && slices[i].generation == m[p])
  }

  /** The highest generation seen per pool decides which slices are current. */
  method CurrentPoolGens(slices: seq<Slice>, driver: string) returns (m: map<string, nat>)
    ensures forall i :: 0 <= i < |slices| && slices[i].driver == driver ==>
      (slices[i].generation >= GetOr(m, slices[i].pool, 0) <==> IsCurrent(slices, driver, i))
  {
    m := map[];
    for n := 0 to |slices|
      invariant GenBound(slices, n, driver, m)
    {
      if slices[n].driver == driver && slices[n].generation > GetOr(m, slices[n].pool, 0) {
        m := m[slices[n].pool := slices[n].generation];
      }
    }
  }

  // ---- The llmfit evaluation -------------------------------------------------------

  ghost function MissOf(q: Query, slices: seq<Slice>, best: Option<Slot>): Option<Miss> {
    if best.Some? && InRange(slices, best.value) && Judged(q, DeviceAt(slices, best.value))
    then Some(MissAt(q, slices, best.value)) else None
  }

  ghost predicate Counted(q: Query, slices: seq<Slice>, held: map<string, string>, p: Slot,
                          devices: nat, nodes: set<string>, available: nat, heldBy: string) {
    Tallied(slices, held, SlotsBefore(Candidate, q, slices, p), devices, nodes, available, heldBy)
  }

  ghost predicate Missed(q: Query, slices: seq<Slice>, p: Slot, best: Option<Slot>, score: real, msg: Option<Miss>) {
    && IsBest(Rejected, q, slices, SlotsBefore(Rejected, q, slices, p), best, score)
    && msg == MissOf(q, slices, best)
  }

  ghost predicate Demotions(q: Query, slices: seq<Slice>, p: Slot, best: Option<Slot>, n: nat,
                            mem: int, name: string, node: string, model: string) {
    && IsBest(Excluded, q, slices, SlotsBefore(Excluded, q, slices, p), best, mem as real)
    && n == |SlotsBefore(Excluded, q, slices, p)|
    && (best.Some? ==> mem >= 0 && DemotedAt(slices, best.value, 0) == Demoted(name, node, model, mem, 0))
  }

  ghost predicate Unknowns(q: Query, slices: seq<Slice>, p: Slot, unknown: set<string>) {
    unknown == ProductsOf(slices, SlotsBefore(Unknown, q, slices, p))
  }

  lemma ReadingOrder(k: Kind, q: Query, slices: seq<Slice>, p: Slot)
    ensures forall r :: r in SlotsBefore(k, q, slices, p) ==> Before(r, p)
  {
  }

  /** The locals of an evaluation loop. */
  datatype Progress = Progress(
    devices: nat, nodes: set<string>, available: nat, heldBy: string,
    bestScore: real, bestMsg: Option<Miss>,
    excluded: nat, exclMem: int, exclName: string, exclNode: string, exclModel: string,
    unknown: set<string>)

  const START: Progress := Progress(0, {}, 0, "", -1.0, None, 0, -1, "", "", "", {})

  ghost predicate SomeMissed(q: Query, slices: seq<Slice>, p: Slot, st: Progress) {
    exists best: Option<Slot> :: Missed(q, slices, p, best, st.bestScore, st.bestMsg)
  }

  ghost predicate SomeDemotions(q: Query, slices: seq<Slice>, p: Slot, st: Progress) {
    exists best: Option<Slot> ::
      Demotions(q, slices, p, best, st.excluded, st.exclMem, st.exclName, st.exclNode, st.exclModel)
  }

  /** The locals agree with everything read before position `p`. */
  ghost predicate ReadUpTo(q: Query, slices: seq<Slice>, held: map<string, string>, p: Slot, st: Progress) {
    && Counted(q, slices, held, p, st.devices, st.nodes, st.available, st.heldBy)
    && SomeMissed(q, slices, p, st)
    && SomeDemotions(q, slices, p, st)
    && Unknowns(q, slices, p, st.unknown)
  }

  lemma Begin(q: Query, slices: seq<Slice>, held: map<string, string>)
    ensures ReadUpTo(q, slices, held, (0, 0), START)
  {
    AtStart(Candidate, q, slices);
    AtStart(Rejected, q, slices);
    AtStart(Excluded, q, slices);
    AtStart(Unknown, q, slices);
    assert Missed(q, slices, (0, 0), None, -1.0, None);
    assert Demotions(q, slices, (0, 0), None, 0, -1, "", "", "");
  }

  lemma ReadOther(k: Kind, q: Query, slices: seq<Slice>, i: nat, j: nat)
    requires InRange(slices, (i, j)) && IsCurrent(slices, DriverOf(q), i) && Classify(q, slices[i].devices[j]) != k
    ensures SlotsBefore(k, q, slices, (i, j + 1)) == SlotsBefore(k, q, slices, (i, j))
  {
    NextDevice(k, q, slices, i, j);
  }

  lemma ReadIgnored(q: Query, slices: seq<Slice>, held: map<string, string>, i: nat, j: nat, st: Progress)
    requires InRange(slices, (i, j)) && IsAt(Ignored, q, slices, (i, j)) && ReadUpTo(q, slices, held, (i, j), st)
    ensures ReadUpTo(q, slices, held, (i, j + 1), st)
  {
    hide Tallied, IsBest, DemotedAt, SlotsBefore, MissOf, ProductsOf;
    ReadOther(Candidate, q, slices, i, j);
    ReadOther(Rejected, q, slices, i, j);
    ReadOther(Excluded, q, slices, i, j);
    ReadOther(Unknown, q, slices, i, j);
    KeepMissed(q, slices, (i, j), (i, j + 1), st);
    KeepDemotions(q, slices, (i, j), (i, j + 1), st);
  }

  lemma KeepMissed(q: Query, slices: seq<Slice>, p: Slot, p': Slot, st: Progress)
    requires SlotsBefore(Rejected, q, slices, p') == SlotsBefore(Rejected, q, slices, p) && SomeMissed(q, slices, p, st)
    ensures SomeMissed(q, slices, p', st)
  {
    hide IsBest, SlotsBefore, MissOf;
    var best: Option<Slot> :| Missed(q, slices, p, best, st.bestScore, st.bestMsg);
    assert Missed(q, slices, p', best, st.bestScore, st.bestMsg);
  }

  lemma KeepDemotions(q: Query, slices: seq<Slice>, p: Slot, p': Slot, st: Progress)
    requires SlotsBefore(Excluded, q, slices, p') == SlotsBefore(Excluded, q, slices, p) && SomeDemotions(q, slices, p, st)
    ensures SomeDemotions(q, slices, p', st)
  {
    hide IsBest, SlotsBefore, Weight;
    var best: Option<Slot> :| Demotions(q, slices, p, best, st.excluded, st.exclMem, st.exclName, st.exclNode, st.exclModel);
    assert Demotions(q, slices, p', best, st.excluded, st.exclMem, st.exclName, st.exclNode, st.exclModel);
  }

  lemma ReadCandidate(q: Query, slices: seq<Slice>, held: map<string, string>, i: nat, j: nat, st: Progress)
    requires InRange(slices, (i, j)) && IsAt(Candidate, q, slices, (i, j)) && ReadUpTo(q, slices, held, (i, j), st)
    ensures var key := KeyAt(slices, (i, j));
            var counted := st.(devices := st.devices + 1, nodes := WithNode(st.nodes, NodeOf(slices[i])));
            ReadUpTo(q, slices, held, (i, j + 1),
                     if key !in held then counted.(available := st.available + 1)
                     else if st.heldBy == "" then counted.(heldBy := held[key])
                     else counted)
  {
    hide Tallied, IsBest, DemotedAt, SlotsBefore, MissOf, ProductsOf, Classify;
    var key := KeyAt(slices, (i, j));
    var counted := st.(devices := st.devices + 1, nodes := WithNode(st.nodes, NodeOf(slices[i])));
    var after := if key !in held then counted.(available := st.available + 1)
                 else if st.heldBy == "" then counted.(heldBy := held[key])
                 else counted;
    NextDevice(Candidate, q, slices, i, j);
    ReadingOrder(Candidate, q, slices, (i, j));
    TallyOne(slices, held, SlotsBefore(Candidate, q, slices, (i, j)), (i, j), st.devices, st.nodes, st.available, st.heldBy);
    ReadOther(Rejected, q, slices, i, j);
    ReadOther(Excluded, q, slices, i, j);
    ReadOther(Unknown, q, slices, i, j);
    KeepMissed(q, slices, (i, j), (i, j + 1), st);
    KeepDemotions(q, slices, (i, j), (i, j + 1), st);
    assert SomeMissed(q, slices, (i, j + 1), after) by {
      var best: Option<Slot> :| Missed(q, slices, (i, j + 1), best, st.bestScore, st.bestMsg);
      assert Missed(q, slices, (i, j + 1), best, after.bestScore, after.bestMsg);
    }
    assert SomeDemotions(q, slices, (i, j + 1), after) by {
      var best: Option<Slot> :| Demotions(q, slices, (i, j + 1), best, st.excluded, st.exclMem, st.exclName, st.exclNode, st.exclModel);
      assert Demotions(q, slices, (i, j + 1), best, after.excluded, after.exclMem, after.exclName, after.exclNode, after.exclModel);
    }
  }

  lemma ReadRejected(q: Query, slices: seq<Slice>, held: map<string, string>, i: nat, j: nat, st: Progress)
    requires InRange(slices, (i, j)) && IsAt(Rejected, q, slices, (i, j)) && ReadUpTo(q, slices, held, (i, j), st)
    ensures var score := Score(q, slices[i].devices[j]);
            ReadUpTo(q, slices, held, (i, j + 1),
                     if score > st.bestScore then st.(bestScore := score, bestMsg := Some(MissAt(q, slices, (i, j)))) else st)
  {
    hide Tallied, IsBest, DemotedAt, SlotsBefore, ProductsOf, Score, Failing, MissAt;
    var d := slices[i].devices[j];
    var after := if Score(q, d) > st.bestScore then st.(bestScore := Score(q, d), bestMsg := Some(MissAt(q, slices, (i, j)))) else st;
    var best: Option<Slot> :| Missed(q, slices, (i, j), best, st.bestScore, st.bestMsg);
    NextDevice(Rejected, q, slices, i, j);
    ReadingOrder(Rejected, q, slices, (i, j));
    BestOne(Rejected, q, slices, SlotsBefore(Rejected, q, slices, (i, j)), best, st.bestScore, (i, j));
    assert Missed(q, slices, (i, j + 1), if Score(q, d) > st.bestScore then Some((i, j)) else best, after.bestScore, after.bestMsg);
    ReadOther(Candidate, q, slices, i, j);
    ReadOther(Excluded, q, slices, i, j);
    ReadOther(Unknown, q, slices, i, j);
    KeepDemotions(q, slices, (i, j), (i, j + 1), st);
    assert SomeDemotions(q, slices, (i, j + 1), after) by {
      var b: Option<Slot> :| Demotions(q, slices, (i, j + 1), b, st.excluded, st.exclMem, st.exclName, st.exclNode, st.exclModel);
      assert Demotions(q, slices, (i, j + 1), b, after.excluded, after.exclMem, after.exclName, after.exclNode, after.exclModel);
    }
  }

  lemma ReadExcluded(q: Query, slices: seq<Slice>, held: map<string, string>, i: nat, j: nat, st: Progress)
    requires InRange(slices, (i, j)) && IsAt(Excluded, q, slices, (i, j)) && ReadUpTo(q, slices, held, (i, j), st)
    ensures var d := slices[i].devices[j];
            var m := GetOr(d.capacity, "memory", 0);
            var more := st.(excluded := st.excluded + 1);
            ReadUpTo(q, slices, held, (i, j + 1),
                     if m > st.exclMem
                     then more.(exclMem := m, exclName := d.name, exclNode := NodeOf(slices[i]), exclModel := StrOr(d, "model"))
                     else more)
  {
    hide Tallied, IsBest, SlotsBefore, ProductsOf, Score, Failing, MissOf, Classify;
    var d := slices[i].devices[j];
    var m := GetOr(d.capacity, "memory", 0);
    var more := st.(excluded := st.excluded + 1);
    var after := if m > st.exclMem
                 then more.(exclMem := m, exclName := d.name, exclNode := NodeOf(slices[i]), exclModel := StrOr(d, "model"))
                 else more;
    var best: Option<Slot> :| Demotions(q, slices, (i, j), best, st.excluded, st.exclMem, st.exclName, st.exclNode, st.exclModel);
    NextDevice(Excluded, q, slices, i, j);
    ReadingOrder(Excluded, q, slices, (i, j));
    BestOne(Excluded, q, slices, SlotsBefore(Excluded, q, slices, (i, j)), best, st.exclMem as real, (i, j));
    assert Demotions(q, slices, (i, j + 1), if m > st.exclMem then Some((i, j)) else best,
                     after.excluded, after.exclMem, after.exclName, after.exclNode, after.exclModel);
    ReadOther(Candidate, q, slices, i, j);
    ReadOther(Rejected, q, slices, i, j);
    ReadOther(Unknown, q, slices, i, j);
    KeepMissed(q, slices, (i, j), (i, j + 1), st);
    assert SomeMissed(q, slices, (i, j + 1), after) by {
      var b: Option<Slot> :| Missed(q, slices, (i, j + 1), b, st.bestScore, st.bestMsg);
      assert Missed(q, slices, (i, j + 1), b, after.bestScore, after.bestMsg);
    }
  }

  lemma ReadUnknown(q: Query, slices: seq<Slice>, held: map<string, string>, i: nat, j: nat, st: Progress)
    requires InRange(slices, (i, j)) && IsAt(Unknown, q, slices, (i, j)) && ReadUpTo(q, slices, held, (i, j), st)
    ensures ReadUpTo(q, slices, held, (i, j + 1), st.(unknown := st.unknown + {NvidiaFit.ProductOf(slices[i].devices[j])}))
  {
    hide Tallied, IsBest, DemotedAt, SlotsBefore, MissOf, ProductsOf, Classify;
    var after := st.(unknown := st.unknown + {NvidiaFit.ProductOf(slices[i].devices[j])});
    NextDevice(Unknown, q, slices, i, j);
    ProductsOfOneMore(slices, SlotsBefore(Unknown, q, slices, (i, j)), (i, j));
    ReadOther(Candidate, q, slices, i, j);
    ReadOther(Rejected, q, slices, i, j);
    ReadOther(Excluded, q, slices, i, j);
    KeepMissed(q, slices, (i, j), (i, j + 1), st);
    KeepDemotions(q, slices, (i, j), (i, j + 1), st);
    assert SomeMissed(q, slices, (i, j + 1), after) by {
      var b: Option<Slot> :| Missed(q, slices, (i, j + 1), b, st.bestScore, st.bestMsg);
      assert Missed(q, slices, (i, j + 1), b, after.bestScore, after.bestMsg);
    }
    assert SomeDemotions(q, slices, (i, j + 1), after) by {
      var b: Option<Slot> :| Demotions(q, slices, (i, j + 1), b, st.excluded, st.exclMem, st.exclName, st.exclNode, st.exclModel);
      assert Demotions(q, slices, (i, j + 1), b, after.excluded, after.exclMem, after.exclName, after.exclNode, after.exclModel);
    }
  }

  lemma ProductsOfOneMore(slices: seq<Slice>, slots: set<Slot>, s: Slot)
    requires InRange(slices, s)
    ensures ProductsOf(slices, slots + {s}) == ProductsOf(slices, slots) + {NvidiaFit.ProductOf(DeviceAt(slices, s))}
  {
    assert s in slots + {s};
    forall p | p in ProductsOf(slices, slots)
      ensures p in ProductsOf(slices, slots + {s})
    {
      var r :| r in slots && InRange(slices, r) && NvidiaFit.ProductOf(DeviceAt(slices, r)) == p;
      assert r in slots + {s};
    }
  }

  /** Positions with the same slots behind them are interchangeable. */
  lemma SameReading(q: Query, slices: seq<Slice>, held: map<string, string>, p: Slot, p': Slot, st: Progress)
    requires forall k :: SlotsBefore(k, q, slices, p') == SlotsBefore(k, q, slices, p)
    requires ReadUpTo(q, slices, held, p, st)
    ensures ReadUpTo(q, slices, held, p', st)
  {
    hide Tallied, IsBest, DemotedAt, SlotsBefore, MissOf, ProductsOf;
    assert SlotsBefore(Candidate, q, slices, p') == SlotsBefore(Candidate, q, slices, p);
    assert SlotsBefore(Unknown, q, slices, p') == SlotsBefore(Unknown, q, slices, p);
    KeepMissed(q, slices, p, p', st);
    KeepDemotions(q, slices, p, p', st);
  }

  lemma SliceDone(q: Query, slices: seq<Slice>, held: map<string, string>, i: nat, st: Progress)
    requires i < |slices| && ReadUpTo(q, slices, held, (i, |slices[i].devices|), st)
    ensures ReadUpTo(q, slices, held, (i + 1, 0), st)
  {
    forall k
      ensures SlotsBefore(k, q, slices, (i + 1, 0)) == SlotsBefore(k, q, slices, (i, |slices[i].devices|))
    {
      NextSlice(k, q, slices, i);
    }
    SameReading(q, slices, held, (i, |slices[i].devices|), (i + 1, 0), st);
  }

  lemma SliceSkipped(q: Query, slices: seq<Slice>, held: map<string, string>, i: nat, st: Progress)
    requires i < |slices| && !IsCurrent(slices, DriverOf(q), i) && ReadUpTo(q, slices, held, (i, 0), st)
    ensures ReadUpTo(q, slices, held, (i + 1, 0), st)
  {
    forall k
      ensures SlotsBefore(k, q, slices, (i + 1, 0)) == SlotsBefore(k, q, slices, (i, 0))
    {
      SkipSlice(k, q, slices, i);
    }
    SameReading(q, slices, held, (i, 0), (i + 1, 0), st);
  }

  /** The snapshot read off the final locals. */
  function Conclusion(st: Progress): Snapshot {
    var demoted := if st.excluded > 0
                   then Some(Demoted(st.exclName, st.exclNode, st.exclModel, Positive(st.exclMem), st.excluded - 1))
                   else None;
    Snapshot(st.devices, |st.nodes|, st.available, st.heldBy,
             if st.devices == 0 then Some(Shortfall(st.bestMsg, demoted, st.unknown)) else None)
  }

  lemma Conclude(q: Query, slices: seq<Slice>, held: map<string, string>, st: Progress)
    requires ReadUpTo(q, slices, held, (|slices|, 0), st)
    ensures IsSnapshot(q, slices, held, Conclusion(st))
  {
    hide Classify, Failing, Weight, FirstHolder, NodesOf, FreeOf, SlotsBefore, SlotsOf;
    AtEnd(Candidate, q, slices);
    AtEnd(Rejected, q, slices);
    AtEnd(Excluded, q, slices);
    AtEnd(Unknown, q, slices);
    var end := (|slices|, 0);
    var rej: Option<Slot> :| Missed(q, slices, end, rej, st.bestScore, st.bestMsg);
    var exc: Option<Slot> :| Demotions(q, slices, end, exc, st.excluded, st.exclMem, st.exclName, st.exclNode, st.exclModel);
    assert FirstMax(Rejected, q, slices, SlotsOf(Rejected, q, slices), rej);
    assert FirstMax(Excluded, q, slices, SlotsOf(Excluded, q, slices), exc);
  }

  /** How the branches of the loop body sort a device. */
  lemma LlmfitKind(b: Bounds, deviceClass: string, floor: nat, d: Device)
    ensures var k := Classify(Llmfit(b, deviceClass, floor), d);
            var wantKind := LlmfitFit.KindForClass(deviceClass);
            if wantKind != "" && StrOf(d, "kind") != Some(wantKind) then k == Ignored
            else if (deviceClass == BASE_CLASS || deviceClass == GPU_CLASS) && BoolOf(d, "vendorManaged") == Some(true) then k == Excluded
            else if LlmfitFit.MemOK(b, d) && LlmfitFit.BwOK(b, deviceClass, d) && LlmfitFit.ComputeOK(floor, d) && LlmfitFit.HealthyOK(d)
            then k == Candidate
            else k == Rejected
  {
  }

  /** Score, constraints and message of a reject, as the loop body computes them. */
  lemma LlmfitReject(b: Bounds, deviceClass: string, floor: nat, slices: seq<Slice>, s: Slot)
    requires InRange(slices, s) && Judged(Llmfit(b, deviceClass, floor), DeviceAt(slices, s))
    ensures var q, d := Llmfit(b, deviceClass, floor), DeviceAt(slices, s);
            && Meets(q, Memory, d) == LlmfitFit.MemOK(b, d)
            && Meets(q, Bandwidth, d) == LlmfitFit.BwOK(b, deviceClass, d)
            && Meets(q, Compute, d) == LlmfitFit.ComputeOK(floor, d)
            && Meets(q, Health, d) == LlmfitFit.HealthyOK(d)
            && MissAt(q, slices, s) == Miss(d.name, "", "", NodeOf(slices[s.0]), Failing(q, d))
            && Score(q, d) == Met(LlmfitFit.MemOK(b, d)) + Met(LlmfitFit.BwOK(b, deviceClass, d))
                              + Met(LlmfitFit.ComputeOK(floor, d)) + Met(LlmfitFit.HealthyOK(d))
                              + Ratio(PublishedBandwidth(d), b.minBandwidthGBs) * 0.1
  {
  }

  /** Reads the four constraints off one device. */
  method JudgeLlmfit(b: Bounds, deviceClass: string, floor: nat, d: Device)
    returns (memOK: bool, bwOK: bool, computeOK: bool, healthyOK: bool)
    ensures memOK == LlmfitFit.MemOK(b, d)
    ensures bwOK == LlmfitFit.BwOK(b, deviceClass, d)
    ensures computeOK == LlmfitFit.ComputeOK(floor, d)
    ensures healthyOK == LlmfitFit.HealthyOK(d)
  {
    memOK, bwOK, healthyOK := false, false, false;
    var memFloor := b.memoryGi * GIB;
    var bwRequired := deviceClass != CPU_CLASS;
    if "memory" in d.capacity {
      memOK := d.capacity["memory"] >= memFloor;
    }
    var bw := IntOf(d, "memoryBandwidthGBs");
    if bw.Some? {
      bwOK := bw.value >= b.minBandwidthGBs;
    }
    if !bwRequired {
      bwOK := true;
    }
    var compute := 0;
    if IntOf(d, "computeTFLOPS").Some? {
      compute := IntOf(d, "computeTFLOPS").value;
    }
    computeOK := floor == 0 || compute >= floor;
    if BoolOf(d, "healthy").Some? {
      healthyOK := BoolOf(d, "healthy").value;
    }
  }

  /** The failing constraints, collected one test at a time. */
  method LlmfitReasons(ghost q: Query, ghost d: Device, memOK: bool, bwOK: bool, computeOK: bool, healthyOK: bool)
    returns (reasons: set<Constraint>)
    requires q.Llmfit? && Judged(q, d)
    requires memOK == Meets(q, Memory, d) && bwOK == Meets(q, Bandwidth, d)
    requires computeOK == Meets(q, Compute, d) && healthyOK == Meets(q, Health, d)
    ensures reasons == Failing(q, d)
  {
    reasons := {};
    if !memOK { reasons := reasons + {Memory}; }
    if !bwOK { reasons := reasons + {Bandwidth}; }
    if !computeOK { reasons := reasons + {Compute}; }
    if !healthyOK { reasons := reasons + {Health}; }
    FailingListed(q, d);
  }

  /** One turn of the llmfit loop body. */
  method ReadLlmfit(slices: seq<Slice>, held: map<string, string>, b: Bounds, deviceClass: string, floor: nat,
                    i: nat, j: nat, before: Progress)
    returns (st: Progress)
    requires InRange(slices, (i, j)) && IsCurrent(slices, LLMFIT_DOMAIN, i)
    requires ReadUpTo(Llmfit(b, deviceClass, floor), slices, held, (i, j), before)
    ensures ReadUpTo(Llmfit(b, deviceClass, floor), slices, held, (i, j + 1), st)
  {
    hide ReadUpTo, Classify, Score, MissAt, Failing, Meets;
    hide LlmfitFit.MemOK, LlmfitFit.BwOK, LlmfitFit.ComputeOK, LlmfitFit.HealthyOK;
    ghost var q := Llmfit(b, deviceClass, floor);
    var slice := slices[i];
    var node := NodeOf(slice);
    var d := slice.devices[j];
    LlmfitKind(b, deviceClass, floor, d);
    st := before;

    var wantKind := LlmfitFit.KindForClass(deviceClass);
    if wantKind != "" && StrOf(d, "kind") != Some(wantKind) {
      ReadIgnored(q, slices, held, i, j, before);
      return;
    }
    if deviceClass == BASE_CLASS || deviceClass == GPU_CLASS {
      if BoolOf(d, "vendorManaged") == Some(true) {
        ReadExcluded(q, slices, held, i, j, before);
        st := st.(excluded := st.excluded + 1);
        var mem := GetOr(d.capacity, "memory", 0);
        if mem > st.exclMem {
          st := st.(exclName := d.name, exclNode := node, exclMem := mem, exclModel := StrOr(d, "model"));
        }
        return; // not a candidate, but remembered for the diagnostics
      }
    }

    var memOK, bwOK, computeOK, healthyOK := JudgeLlmfit(b, deviceClass, floor, d);
    if memOK && bwOK && computeOK && healthyOK {
      ReadCandidate(q, slices, held, i, j, before);
      st := Count(st, held, slice.pool, d.name, node);
      return;
    }

    ReadRejected(q, slices, held, i, j, before);
    LlmfitReject(b, deviceClass, floor, slices, (i, j));
    var score := Met(memOK) + Met(bwOK) + Met(computeOK) + Met(healthyOK);
    var bw := PublishedBandwidth(d);
    if b.minBandwidthGBs > 0 && bw > 0 {
      score := score + bw as real / b.minBandwidthGBs as real * 0.1;
    }
    if score > st.bestScore {
      var reasons := LlmfitReasons(q, d, memOK, bwOK, computeOK, healthyOK);
      st := st.(bestScore := score, bestMsg := Some(Miss(d.name, "", "", node, reasons)));
    }
  }

  /** Counts an admitted device as free or held. */
  method Count(before: Progress, held: map<string, string>, pool: string, device: string, node: string)
    returns (st: Progress)
    ensures var counted := before.(devices := before.devices + 1, nodes := WithNode(before.nodes, node));
            var key := DeviceKey(pool, device);
            st == if key !in held then counted.(available := before.available + 1)
                  else if before.heldBy == "" then counted.(heldBy := held[key])
                  else counted
  {
    st := before.(devices := before.devices + 1);
    if node != "" {
      st := st.(nodes := st.nodes + {node});
    }
    var key := DeviceKey(pool, device);
    if key in held {
      if st.heldBy == "" {
        st := st.(heldBy := held[key]);
      }
    } else {
      st := st.(available := st.available + 1);
    }
  }

  /** The static check of the bounds against published llmfit.ai slices. */
  method EvaluateSlices(slices: seq<Slice>, held: map<string, string>, b: Bounds, deviceClass: string, floor: nat)
    returns (c: Snapshot)
    ensures IsSnapshot(Llmfit(b, deviceClass, floor), slices, held, c)
  {
    hide ReadUpTo, IsSnapshot;
    ghost var q := Llmfit(b, deviceClass, floor);
    var maxGen := CurrentPoolGens(slices, LLMFIT_DOMAIN);
    var st := START;
    Begin(q, slices, held);
    for i := 0 to |slices|
      invariant ReadUpTo(q, slices, held, (i, 0), st)
    {
      var slice := slices[i];
      if slice.driver != LLMFIT_DOMAIN || slice.generation < GetOr(maxGen, slice.pool, 0) {
        SliceSkipped(q, slices, held, i, st);
        continue; // not a current slice of the driver
      }
      for j := 0 to |slice.devices|
        invariant ReadUpTo(q, slices, held, (i, j), st)
      {
        st := ReadLlmfit(slices, held, b, deviceClass, floor, i, j, st);
      }
      SliceDone(q, slices, held, i, st);
    }
    Conclude(q, slices, held, st);
    c := Conclusion(st);
  }
}
