/** The loop state both evaluations carry, tied to the slots read so far. */
module Tally {
  import opened Prelude
  import opened Resources
  import opened Slots
  import Arith
  import NvidiaFit

  /** The nearest miss: which device, where, and the constraints it fails. */
  datatype Miss = Miss(device: string, profile: string, product: string, node: string, failing: set<Constraint>)

  /** The demoted device shown as an example, with how many more there are. */
  datatype Demoted = Demoted(device: string, node: string, model: string, memory: nat, more: nat)

  datatype Shortfall = Shortfall(closest: Option<Miss>, demoted: Option<Demoted>, unknown: set<string>)

  /** The satisfiability snapshot. */
  datatype Snapshot = Snapshot(devices: nat, nodes: nat, available: nat, heldBy: string, shortfall: Option<Shortfall>)

  // ---- Counting -----------------------------------------------------------------

  /** `h` is the first non-empty holder among the held slots of `slots`, "" if none. */
  ghost predicate FirstHolder(slices: seq<Slice>, held: map<string, string>, slots: set<Slot>, h: string) {
    if h == "" then
      forall s :: s in slots && InRange(slices, s) && KeyAt(slices, s) in held ==> held[KeyAt(slices, s)] == ""
    else
      exists s :: HoldsFirst(slices, held, slots, h, s)
  }

  ghost predicate HoldsFirst(slices: seq<Slice>, held: map<string, string>, slots: set<Slot>, h: string, s: Slot) {
    && s in slots && InRange(slices, s) && KeyAt(slices, s) in held && held[KeyAt(slices, s)] == h
    && forall r :: r in slots && InRange(slices, r) && Before(r, s) && KeyAt(slices, r) in held ==> held[KeyAt(slices, r)] == ""
  }

  ghost predicate Tallied(slices: seq<Slice>, held: map<string, string>, slots: set<Slot>,
                          devices: nat, nodes: set<string>, available: nat, heldBy: string) {
    && devices == |slots|
    && nodes == NodesOf(slices, slots)
    && available == |FreeOf(slices, held.Keys, slots)|
    && FirstHolder(slices, held, slots, heldBy)
  }

  function WithNode(nodes: set<string>, node: string): set<string> {
    if node == "" then nodes else nodes + {node}
  }

  /** Counting one more candidate, read after all those in `slots`. */
  lemma TallyOne(slices: seq<Slice>, held: map<string, string>, slots: set<Slot>, s: Slot,
                 devices: nat, nodes: set<string>, available: nat, heldBy: string)
    requires Tallied(slices, held, slots, devices, nodes, available, heldBy)
    requires InRange(slices, s) && s !in slots && forall r :: r in slots ==> Before(r, s)
    ensures KeyAt(slices, s) in held ==>
              Tallied(slices, held, slots + {s}, devices + 1, WithNode(nodes, NodeOf(slices[s.0])), available,
                      if heldBy == "" then held[KeyAt(slices, s)] else heldBy)
    ensures KeyAt(slices, s) !in held ==>
              Tallied(slices, held, slots + {s}, devices + 1, WithNode(nodes, NodeOf(slices[s.0])), available + 1, heldBy)
  {
    hide FirstHolder, NodesOf, KeyAt;
    NodesOfOneMore(slices, slots, s);
    HolderOneMore(slices, held, slots, s, heldBy);
    assert FreeOf(slices, held.Keys, slots + {s}) ==
           FreeOf(slices, held.Keys, slots) + (if KeyAt(slices, s) in held then {} else {s});
  }

  lemma HolderOneMore(slices: seq<Slice>, held: map<string, string>, slots: set<Slot>, s: Slot, h: string)
    requires FirstHolder(slices, held, slots, h)
    requires InRange(slices, s) && forall r :: r in slots ==> Before(r, s)
    ensures FirstHolder(slices, held, slots + {s}, if KeyAt(slices, s) in held && h == "" then held[KeyAt(slices, s)] else h)
  {
    hide KeyAt;
    var more := slots + {s};
    if h != "" {
      var f :| HoldsFirst(slices, held, slots, h, f);
      assert HoldsFirst(slices, held, more, h, f);
    } else if KeyAt(slices, s) in held && held[KeyAt(slices, s)] != "" {
      assert HoldsFirst(slices, held, more, held[KeyAt(slices, s)], s);
    }
  }

  lemma NodesOfOneMore(slices: seq<Slice>, slots: set<Slot>, s: Slot)
    requires InRange(slices, s)
    ensures NodesOf(slices, slots + {s}) == WithNode(NodesOf(slices, slots), NodeOf(slices[s.0]))
  {
    var l, r := NodesOf(slices, slots + {s}), WithNode(NodesOf(slices, slots), NodeOf(slices[s.0]));
    forall n | n in r
      ensures n in l
    {
      if n == NodeOf(slices[s.0]) {
        assert s in slots + {s};
      } else {
        var x :| x in slots && x.0 < |slices| && NodeOf(slices[x.0]) == n;
        assert x in slots + {s};
      }
    }
  }

  /** A device that every claim-named holder leaves unavailable names its holder. */
  lemma SomeHolderNamed(slices: seq<Slice>, held: map<string, string>, slots: set<Slot>, h: string)
    requires slots <= AllSlots(slices) && FirstHolder(slices, held, slots, h)
    requires forall k :: k in held ==> held[k] != ""
    requires slots != {} && FreeOf(slices, held.Keys, slots) == {}
    ensures h != ""
  {
    var s :| s in slots;
    assert InRange(slices, s);
    assert s !in FreeOf(slices, held.Keys, slots);
  }

  // ---- The first slot of maximal weight --------------------------------------------

  function Weight(q: Query, k: Kind, d: Device): real {
    if k == Rejected && Classify(q, d) == Rejected then Score(q, d)
    else GetOr(d.capacity, "memory", 0) as real
  }

  ghost predicate FirstMax(k: Kind, q: Query, slices: seq<Slice>, slots: set<Slot>, best: Option<Slot>) {
    match best
    case None => slots == {}
    case Some(s) =>
      && s in slots && InRange(slices, s)
      && forall r :: r in slots && InRange(slices, r) ==>
           && Weight(q, k, DeviceAt(slices, r)) <= Weight(q, k, DeviceAt(slices, s))
           && (Before(r, s) ==> Weight(q, k, DeviceAt(slices, r)) < Weight(q, k, DeviceAt(slices, s)))
  }

  /** The running best, with -1 standing for "none yet". */
  ghost predicate IsBest(k: Kind, q: Query, slices: seq<Slice>, slots: set<Slot>, best: Option<Slot>, score: real) {
    && FirstMax(k, q, slices, slots, best)
    && score == (if best.Some? then Weight(q, k, DeviceAt(slices, best.value)) else -1.0)
  }

  lemma BestOne(k: Kind, q: Query, slices: seq<Slice>, slots: set<Slot>, best: Option<Slot>, score: real, s: Slot)
    requires IsBest(k, q, slices, slots, best, score)
    requires InRange(slices, s) && forall r :: r in slots ==> Before(r, s)
    ensures var w := Weight(q, k, DeviceAt(slices, s));
            if w > score then IsBest(k, q, slices, slots + {s}, Some(s), w)
            else IsBest(k, q, slices, slots + {s}, best, score)
  {
    hide Weight;
    WeightNonNegative(q, k, DeviceAt(slices, s));
  }

  lemma WeightNonNegative(q: Query, k: Kind, d: Device)
    ensures Weight(q, k, d) >= 0.0
  {
  }

  /** There is only one such slot. */
  lemma FirstMaxUnique(k: Kind, q: Query, slices: seq<Slice>, slots: set<Slot>, a: Option<Slot>, c: Option<Slot>)
    requires FirstMax(k, q, slices, slots, a) && FirstMax(k, q, slices, slots, c)
    ensures a == c
  {
    if a.Some? && c.Some? {
      assert Before(a.value, c.value) || Before(c.value, a.value) || a.value == c.value;
    }
  }

  // ---- Moving through the slots -------------------------------------------------------

  lemma AtStart(k: Kind, q: Query, slices: seq<Slice>)
    ensures SlotsBefore(k, q, slices, (0, 0)) == {}
  {
  }

  lemma AtEnd(k: Kind, q: Query, slices: seq<Slice>)
    ensures SlotsBefore(k, q, slices, (|slices|, 0)) == SlotsOf(k, q, slices)
  {
  }

  lemma NextDevice(k: Kind, q: Query, slices: seq<Slice>, i: nat, j: nat)
    requires InRange(slices, (i, j))
    ensures SlotsBefore(k, q, slices, (i, j + 1)) ==
            SlotsBefore(k, q, slices, (i, j)) + (if IsAt(k, q, slices, (i, j)) then {(i, j)} else {})
    ensures (i, j) !in SlotsBefore(k, q, slices, (i, j))
  {
    var next, now := SlotsBefore(k, q, slices, (i, j + 1)), SlotsBefore(k, q, slices, (i, j));
    assert (i, j) in AllSlots(slices);
    assert forall s :: s in AllSlots(slices) ==> (Before(s, (i, j + 1)) <==> Before(s, (i, j)) || s == (i, j));
  }

  lemma NextSlice(k: Kind, q: Query, slices: seq<Slice>, i: nat)
    requires i < |slices|
    ensures SlotsBefore(k, q, slices, (i + 1, 0)) == SlotsBefore(k, q, slices, (i, |slices[i].devices|))
  {
    assert forall s :: s in AllSlots(slices) ==> (Before(s, (i + 1, 0)) <==> Before(s, (i, |slices[i].devices|)));
  }

  lemma SkipSlice(k: Kind, q: Query, slices: seq<Slice>, i: nat)
    requires i < |slices| && !IsCurrent(slices, DriverOf(q), i)
    ensures SlotsBefore(k, q, slices, (i + 1, 0)) == SlotsBefore(k, q, slices, (i, 0))
  {
    assert forall s :: s in AllSlots(slices) && s.0 != i ==> (Before(s, (i + 1, 0)) <==> Before(s, (i, 0)));
  }

  // ---- The snapshot's meaning -------------------------------------------------------------

  function StrOr(d: Device, name: string): string {
    if StrOf(d, name).Some? then StrOf(d, name).value else ""
  }

  function MissAt(q: Query, slices: seq<Slice>, s: Slot): Miss
    requires InRange(slices, s) && Judged(q, DeviceAt(slices, s))
  {
    var d := DeviceAt(slices, s);
    Miss(d.name,
         if q.Nvidia? && NvidiaFit.TypeOf(d) == "mig" then StrOr(d, "profile") else "",
         if q.Nvidia? then NvidiaFit.ProductOf(d) else "",
         NodeOf(slices[s.0]),
         Failing(q, d))
  }

  function DemotedAt(slices: seq<Slice>, s: Slot, more: nat): Demoted
    requires InRange(slices, s)
  {
    var d := DeviceAt(slices, s);
    Demoted(d.name, NodeOf(slices[s.0]), StrOr(d, "model"), GetOr(d.capacity, "memory", 0), more)
  }

  ghost function ProductsOf(slices: seq<Slice>, slots: set<Slot>): set<string> {
    set s | s in slots && InRange(slices, s) :: NvidiaFit.ProductOf(DeviceAt(slices, s))
  }

  /** The closest reject is the first of maximal score; the demoted example the
      first of maximal memory; every unknown product is listed. */
  ghost predicate Explains(q: Query, slices: seq<Slice>, f: Shortfall) {
    && (exists best: Option<Slot> ::
          && FirstMax(Rejected, q, slices, SlotsOf(Rejected, q, slices), best)
          && f.closest == (if best.Some? && Judged(q, DeviceAt(slices, best.value))
                           then Some(MissAt(q, slices, best.value)) else None))
    && (exists best: Option<Slot> ::
          && FirstMax(Excluded, q, slices, SlotsOf(Excluded, q, slices), best)
          && f.demoted == (if best.Some? && |SlotsOf(Excluded, q, slices)| > 0
                           then Some(DemotedAt(slices, best.value, |SlotsOf(Excluded, q, slices)| - 1)) else None))
    && f.unknown == ProductsOf(slices, SlotsOf(Unknown, q, slices))
  }

  ghost predicate IsSnapshot(q: Query, slices: seq<Slice>, held: map<string, string>, c: Snapshot) {
    && c.devices == Devices(q, slices)
    && c.nodes == Nodes(q, slices)
    && c.available == Available(q, slices, held.Keys)
    && FirstHolder(slices, held, SlotsOf(Candidate, q, slices), c.heldBy)
    && (c.shortfall.Some? <==> c.devices == 0)
    && (c.shortfall.Some? ==> Explains(q, slices, c.shortfall.value))
  }

  /** Candidates that are all held name a holder. */
  lemma QueuedNamesHolder(q: Query, slices: seq<Slice>, held: map<string, string>, c: Snapshot)
    requires IsSnapshot(q, slices, held, c) && forall k :: k in held ==> held[k] != ""
    requires c.devices > 0 && c.available == 0
    ensures c.heldBy != ""
  {
    SomeHolderNamed(slices, held, SlotsOf(Candidate, q, slices), c.heldBy);
  }

  /** A named nearest miss fails at least one constraint, and none is named only
      when nothing was rejected. */
  lemma MissHasReasons(q: Query, slices: seq<Slice>, f: Shortfall)
    ensures Explains(q, slices, f) ==> (f.closest.Some? ==> f.closest.value.failing != {})
    ensures Explains(q, slices, f) ==> (f.closest.None? <==> SlotsOf(Rejected, q, slices) == {})
  {
    if Explains(q, slices, f) {
      var best: Option<Slot> :| FirstMax(Rejected, q, slices, SlotsOf(Rejected, q, slices), best)
        && f.closest == (if best.Some? && Judged(q, DeviceAt(slices, best.value))
                         then Some(MissAt(q, slices, best.value)) else None);
      if best.Some? {
        CandidateIffNothingFails(q, DeviceAt(slices, best.value));
      }
    }
  }

  // ---- The llmfit ordering is lexicographic ---------------------------------------------------

  function Unless(ok: bool, c: Constraint): set<Constraint> {
    if ok then {} else {c}
  }

  lemma CountUnless(m: bool, w: bool, c: bool, h: bool)
    ensures var failing := Unless(m, Memory) + Unless(w, Bandwidth) + Unless(c, Compute) + Unless(h, Health);
            Met(m) + Met(w) + Met(c) + Met(h) == 4.0 - |failing| as real
  {
    var a := Unless(m, Memory);
    var b := a + Unless(w, Bandwidth);
    var d := b + Unless(c, Compute);
    var e := d + Unless(h, Health);
    assert |b| == |a| + |Unless(w, Bandwidth)|;
    assert |d| == |b| + |Unless(c, Compute)|;
    assert |e| == |d| + |Unless(h, Health)|;
  }

  lemma ScoreCountsConstraints(q: Query, d: Device)
    requires q.Llmfit? && Judged(q, d)
    ensures Score(q, d) == 4.0 - |Failing(q, d)| as real + Ratio(PublishedBandwidth(d), q.b.minBandwidthGBs) * 0.1
  {
    var m, w := Meets(q, Memory, d), Meets(q, Bandwidth, d);
    var c, h := Meets(q, Compute, d), Meets(q, Health, d);
    CountUnless(m, w, c, h);
    FailingListed(q, d);
  }

  lemma FailingListed(q: Query, d: Device)
    requires q.Llmfit? && Judged(q, d)
    ensures Failing(q, d) == Unless(Meets(q, Memory, d), Memory) + Unless(Meets(q, Bandwidth, d), Bandwidth)
                             + Unless(Meets(q, Compute, d), Compute) + Unless(Meets(q, Health, d), Health)
  {
    var all := Unless(Meets(q, Memory, d), Memory) + Unless(Meets(q, Bandwidth, d), Bandwidth)
               + Unless(Meets(q, Compute, d), Compute) + Unless(Meets(q, Health, d), Health);
    forall c: Constraint
      ensures c in Failing(q, d) <==> c in all
    {
      assert c in Failing(q, d) <==> !Meets(q, c, d) by {
        assert c in CONSTRAINTS by {
          match c
          case Memory =>
          case Bandwidth =>
          case Compute =>
          case Health =>
          case Feasibility =>
          case Multiprocessors =>
        }
      }
    }
  }

  function Positive(n: int): nat {
    if n > 0 then n else 0
  }

  /** Ten times the bandwidth floor for every constraint met, plus the bandwidth itself. */
  function Points(q: Query, d: Device): int
    requires Judged(q, d)
  {
    10 * q.b.minBandwidthGBs * (4 - |Failing(q, d)|) + Positive(PublishedBandwidth(d))
  }

  lemma ScoreIsPoints(q: Query, d: Device)
    requires q.Llmfit? && Judged(q, d) && q.b.minBandwidthGBs > 0
    ensures Score(q, d) == Points(q, d) as real / (10 * q.b.minBandwidthGBs) as real
  {
    hide Failing, Score;
    ScoreCountsConstraints(q, d);
    var f, met, bw := q.b.minBandwidthGBs, 4 - |Failing(q, d)|, Positive(PublishedBandwidth(d));
    assert Ratio(PublishedBandwidth(d), f) == bw as real / f as real;
    ScaledSum(met, bw, f);
  }

  lemma ScaledSum(met: int, bw: nat, f: nat)
    requires f > 0
    ensures met as real + bw as real / f as real * 0.1 == (10 * f * met + bw) as real / (10 * f) as real
  {
    var x, r := bw as real / f as real, (10 * f * met + bw) as real / (10 * f) as real;
    var t := (10 * f) as real;
    assert x * f as real == bw as real;
    assert r * t == (10 * f * met + bw) as real;
    assert t == 10.0 * f as real;
    assert (10 * f * met) as real == t * met as real;
    assert (met as real + x * 0.1) * t == met as real * t + x * f as real;
  }

  /** The exact order of llmfit rejects, for all bounds: by points, and without a
      bandwidth floor by constraints met alone. */
  lemma ScoreOrder(q: Query, d: Device, e: Device)
    requires q.Llmfit? && Judged(q, d) && Judged(q, e)
    ensures Score(q, d) > Score(q, e) <==>
            if q.b.minBandwidthGBs > 0 then Points(q, d) > Points(q, e) else |Failing(q, d)| < |Failing(q, e)|
  {
    hide Failing, Score;
    ScoreCountsConstraints(q, d);
    ScoreCountsConstraints(q, e);
    if q.b.minBandwidthGBs > 0 {
      ScoreIsPoints(q, d);
      ScoreIsPoints(q, e);
      QuotientOrder(Points(q, e) as real, Points(q, d) as real, (10 * q.b.minBandwidthGBs) as real);
    }
  }

  /** The exact order of NVIDIA rejects: by derived bandwidth, and without a bandwidth
      floor none is closer than another. */
  lemma NvidiaScoreOrder(q: Query, d: Device, e: Device)
    requires q.Nvidia? && Judged(q, d) && Judged(q, e)
    ensures Score(q, d) > Score(q, e) <==>
            q.b.minBandwidthGBs > 0
            && DerivedBandwidth(NvidiaBoardOf(q.t, d), d) > DerivedBandwidth(NvidiaBoardOf(q.t, e), e)
  {
    hide DerivedBandwidth;
    var x, y, f := DerivedBandwidth(NvidiaBoardOf(q.t, d), d), DerivedBandwidth(NvidiaBoardOf(q.t, e), e), q.b.minBandwidthGBs;
    if f > 0 {
      QuotientOrder(y as real, x as real, f as real);
      assert Ratio(x, f) == x as real / f as real && Ratio(y, f) == y as real / f as real;
    }
  }

  /** With a positive bandwidth floor and bandwidths below ten times it, the score
      orders devices by constraints met first and bandwidth second. */
  lemma ScoreIsLexicographic(q: Query, d: Device, e: Device)
    requires q.Llmfit? && Judged(q, d) && Judged(q, e) && q.b.minBandwidthGBs > 0
    requires PublishedBandwidth(d) < 10 * q.b.minBandwidthGBs && PublishedBandwidth(e) < 10 * q.b.minBandwidthGBs
    ensures Score(q, d) > Score(q, e) <==>
            || |Failing(q, d)| < |Failing(q, e)|
            || (|Failing(q, d)| == |Failing(q, e)| && Positive(PublishedBandwidth(d)) > Positive(PublishedBandwidth(e)))
  {
    hide Failing, Score;
    ScoreOrder(q, d, e);
    LexicographicPoints(10 * q.b.minBandwidthGBs, 4 - |Failing(q, d)|, 4 - |Failing(q, e)|,
                        Positive(PublishedBandwidth(d)), Positive(PublishedBandwidth(e)));
  }

  lemma LexicographicPoints(base: nat, m: int, n: int, x: nat, y: nat)
    requires x < base && y < base
    ensures base * m + x > base * n + y <==> m > n || (m == n && x > y)
  {
    if m > n {
      AtLeastOneMore(base, m, n);
    } else if m < n {
      AtLeastOneMore(base, n, m);
    }
  }

  lemma AtLeastOneMore(base: nat, m: int, n: int)
    requires m > n
    ensures base * m >= base * n + base
  {
    var k: nat := m - n - 1;
    Arith.MulMonotone(0, k, base);
    assert base * m == base * (n + 1 + k) == base * n + base + k * base;
  }

  lemma QuotientOrder(x: real, y: real, f: real)
    requires f > 0.0
    ensures x / f < y / f <==> x < y
  {
    assert y / f - x / f == (y - x) / f;
    var d := (y - x) / f;
    assert d * f == y - x;
    assert d > 0.0 <==> d * f > 0.0;
  }
}
