/** The capability source: transports in order of preference, then the last good
    reading within a staleness bound (internal/llmfit/detector.go). */
module Detector {
  import opened Prelude

  /** One llmfit GPU entry. `vendor` is the classification of its name and
      backend, "" when they are too generic to classify. */
  datatype LlmfitEntry = LlmfitEntry(
    name: string,
    vramGB: Option<real>,
    backend: string,
    count: nat,
    unifiedMemory: bool,
    bandwidth: Option<real>,
    vendor: string)

  datatype System = System(totalRAMGB: real, cpuName: string, gpus: seq<LlmfitEntry>)

  predicate Priced(g: LlmfitEntry) {
    g.bandwidth.Some? && g.bandwidth.value > 0.0
  }

  // ---- Carrying bandwidth forward -----------------------------------------------

  /** Entry `k` is the last one of that name with a positive bandwidth. */
  ghost predicate LastPriced(gpus: seq<LlmfitEntry>, name: string, k: nat) {
    && k < |gpus| && gpus[k].name == name && Priced(gpus[k])
    && forall m :: k < m < |gpus| && gpus[m].name == name ==> !Priced(gpus[m])
  }

  /** `g` is fresh entry `f` after the merge with the previous reading. */
  ghost predicate IsMerged(f: LlmfitEntry, g: LlmfitEntry, prev: seq<LlmfitEntry>) {
    && g == f.(bandwidth := g.bandwidth)
    && (Priced(f) ==> g.bandwidth == f.bandwidth)
    && (forall k: nat :: !Priced(f) && LastPriced(prev, f.name, k) ==> g.bandwidth == prev[k].bandwidth)
    && (!Priced(f) && (forall k: nat :: !LastPriced(prev, f.name, k)) ==> g.bandwidth == f.bandwidth)
  }

  /** `r` is `raw` with missing bandwidths taken from `prev` by name, and nothing
      else changed. */
  ghost predicate IsBackfill(raw: System, prev: Option<System>, r: System) {
    && r == raw.(gpus := r.gpus)
    && |r.gpus| == |raw.gpus|
    && forall i :: 0 <= i < |r.gpus| ==> IsMerged(raw.gpus[i], r.gpus[i], if prev.Some? then prev.value.gpus else [])
  }

  method BackfillBandwidth(raw: System, prev: Option<System>) returns (r: System)
    ensures IsBackfill(raw, prev, r)
  {
    if prev.None? {
      return raw;
    }
    var known := prev.value.gpus;
    var byName: map<string, Option<real>> := map[];
    for i := 0 to |known|
      invariant Collected(known, i, byName)
    {
      CollectOne(known, i, byName);
      if Priced(known[i]) {
        byName := byName[known[i].name := known[i].bandwidth];
      }
    }
    assert known[..|known|] == known;
    var gpus := raw.gpus;
    for i := 0 to |gpus|
      invariant |gpus| == |raw.gpus|
      invariant forall m :: 0 <= m < i ==> IsMerged(raw.gpus[m], gpus[m], known)
      invariant forall m :: i <= m < |gpus| ==> gpus[m] == raw.gpus[m]
    {
      var g := gpus[i];
      if !Priced(g) && g.name in byName {
        ghost var k: nat :| LastPriced(known, g.name, k) && byName[g.name] == known[k].bandwidth;
        LastPricedUnique(known, g.name);
        gpus := gpus[i := g.(bandwidth := byName[g.name])];
      }
    }
    r := raw.(gpus := gpus);
  }

  lemma LastPricedUnique(gpus: seq<LlmfitEntry>, name: string)
    ensures forall k: nat, m: nat :: LastPriced(gpus, name, k) && LastPriced(gpus, name, m) ==> k == m
  {
  }

  /** `byName` holds, for each name among the first `n` entries, its last positive bandwidth. */
  ghost predicate Collected(gpus: seq<LlmfitEntry>, n: nat, byName: map<string, Option<real>>)
    requires n <= |gpus|
  {
    && (forall name :: name in byName ==> exists k: nat :: LastPriced(gpus[..n], name, k) && byName[name] == gpus[k].bandwidth)
    && (forall name, k: nat :: LastPriced(gpus[..n], name, k) ==> name in byName)
  }

  lemma CollectOne(gpus: seq<LlmfitEntry>, i: nat, before: map<string, Option<real>>)
    requires i < |gpus| && Collected(gpus, i, before)
    ensures Collected(gpus, i + 1, if Priced(gpus[i]) then before[gpus[i].name := gpus[i].bandwidth] else before)
  {
    var after := if Priced(gpus[i]) then before[gpus[i].name := gpus[i].bandwidth] else before;
    var now, next := gpus[..i], gpus[..i + 1];
    assert next == now + [gpus[i]];
    forall name | name in after
      ensures exists k: nat :: LastPriced(next, name, k) && after[name] == gpus[k].bandwidth
    {
      if Priced(gpus[i]) && name == gpus[i].name {
        assert LastPriced(next, name, i);
      } else {
        var k: nat :| LastPriced(now, name, k) && before[name] == gpus[k].bandwidth;
        assert LastPriced(next, name, k);
      }
    }
    forall name, k: nat | LastPriced(next, name, k)
      ensures name in after
    {
      if k < i {
        assert LastPriced(now, name, k);
      }
    }
  }

  // ---- Histories ---------------------------------------------------------------------

  /** What one Detect call did, and when: served a reading some transport gave
      (`raw` as reported), served the cache, or failed. */
  datatype Event =
    | Fresh(raw: System, served: System, at: int)
    | Cached(served: System, at: int)
    | Failed(at: int)

  /** The latest fresh reading of a history. */
  ghost function Latest(h: seq<Event>): Option<Event>
    ensures Latest(h).Some? ==> Latest(h).value.Fresh?
  {
    if h == [] then None
    else if h[|h| - 1].Fresh? then Some(h[|h| - 1])
    else Latest(h[..|h| - 1])
  }

  ghost function LatestSystem(h: seq<Event>): Option<System> {
    if Latest(h).Some? then Some(Latest(h).value.served) else None
  }

  /** Event `e` may follow history `h`. */
  ghost predicate Follows(h: seq<Event>, e: Event, maxStale: nat) {
    match e
    case Fresh(raw, served, _) => IsBackfill(raw, LatestSystem(h), served)
    case Cached(served, at) => LatestSystem(h) == Some(served) && at - Latest(h).value.at <= maxStale
    case Failed(at) => Latest(h).None? || at - Latest(h).value.at > maxStale
  }

  ghost predicate IsHistory(h: seq<Event>, maxStale: nat) {
    forall i :: 0 <= i < |h| ==> Follows(h[..i], h[i], maxStale)
  }

  ghost predicate Lists(s: System, name: string) {
    exists i :: 0 <= i < |s.gpus| && s.gpus[i].name == name
  }

  /** Some entry of that name has a positive bandwidth. */
  ghost predicate PricesSome(s: System, name: string) {
    exists i :: 0 <= i < |s.gpus| && s.gpus[i].name == name && Priced(s.gpus[i])
  }

  ghost predicate PricesAll(s: System, name: string) {
    forall i :: 0 <= i < |s.gpus| && s.gpus[i].name == name ==> Priced(s.gpus[i])
  }

  lemma {:induction false} SomePricedHasLast(gpus: seq<LlmfitEntry>, name: string, i: nat) returns (k: nat)
    requires i < |gpus| && gpus[i].name == name && Priced(gpus[i])
    ensures LastPriced(gpus, name, k)
    decreases |gpus| - i
  {
    if m :| i < m < |gpus| && gpus[m].name == name && Priced(gpus[m]) {
      k := SomePricedHasLast(gpus, name, m);
    } else {
      k := i;
    }
  }

  /** A name the previous reading priced is priced throughout the next one. */
  lemma BackfillKeepsPrice(raw: System, prev: System, r: System, name: string)
    requires IsBackfill(raw, Some(prev), r) && PricesSome(prev, name)
    ensures PricesAll(r, name)
    ensures Lists(raw, name) ==> PricesSome(r, name)
  {
    var p :| 0 <= p < |prev.gpus| && prev.gpus[p].name == name && Priced(prev.gpus[p]);
    var k := SomePricedHasLast(prev.gpus, name, p);
    forall i | 0 <= i < |r.gpus| && r.gpus[i].name == name
      ensures Priced(r.gpus[i])
    {
      assert IsMerged(raw.gpus[i], r.gpus[i], prev.gpus);
    }
    if Lists(raw, name) {
      var i :| 0 <= i < |raw.gpus| && raw.gpus[i].name == name;
      assert IsMerged(raw.gpus[i], r.gpus[i], prev.gpus);
      assert r.gpus[i].name == name;
    }
  }

  lemma {:induction false} LatestIsSome(h: seq<Event>) returns (i: nat)
    requires Latest(h).Some?
    ensures i < |h| && h[i] == Latest(h).value && forall k :: i < k < |h| ==> !h[k].Fresh?
  {
    if h[|h| - 1].Fresh? {
      i := |h| - 1;
    } else {
      i := LatestIsSome(h[..|h| - 1]);
    }
  }

  predicate Serves(e: Event) {
    e.Fresh? || e.Cached?
  }

  lemma {:induction false} LatestExists(h: seq<Event>, i: nat)
    requires i < |h| && h[i].Fresh?
    ensures Latest(h).Some?
  {
    if !h[|h| - 1].Fresh? {
      LatestExists(h[..|h| - 1], i);
    }
  }

  /** A cached answer is the latest fresh one, at most `maxStale` old. */
  lemma CachedIsRecent(h: seq<Event>, maxStale: nat, i: nat) returns (k: nat)
    requires IsHistory(h, maxStale) && i < |h| && h[i].Cached?
    ensures k < i && h[k].Fresh? && h[k].served == h[i].served
    ensures h[i].at - h[k].at <= maxStale
    ensures forall m :: k < m < i ==> !h[m].Fresh?
  {
    assert Follows(h[..i], h[i], maxStale);
    k := LatestIsSome(h[..i]);
  }

  /** A call fails only without any earlier reading, or with the latest one too old. */
  lemma FailedMeansStale(h: seq<Event>, maxStale: nat, i: nat, k: nat)
    requires IsHistory(h, maxStale) && k < i < |h| && h[i].Failed? && h[k].Fresh?
    requires forall m :: k < m < i ==> !h[m].Fresh?
    ensures h[i].at - h[k].at > maxStale
  {
    assert Follows(h[..i], h[i], maxStale);
    LatestExists(h[..i], k);
    var l := LatestIsSome(h[..i]);
    assert l == k;
  }

  /** Between fresh readings: a name with a positive bandwidth keeps one. */
  lemma {:induction false} FreshSurvives(h: seq<Event>, maxStale: nat, i: nat, j: nat, name: string)
    requires IsHistory(h, maxStale) && i < j < |h| && h[i].Fresh? && h[j].Fresh?
    requires PricesSome(h[i].served, name)
    requires forall k :: i < k < j && h[k].Fresh? ==> Lists(h[k].raw, name)
    ensures PricesAll(h[j].served, name)
    ensures Lists(h[j].raw, name) ==> PricesSome(h[j].served, name)
    decreases j
  {
    assert Follows(h[..j], h[j], maxStale);
    LatestExists(h[..j], i);
    var k := LatestIsSome(h[..j]);
    if k > i {
      FreshSurvives(h, maxStale, i, k, name);
    }
    BackfillKeepsPrice(h[j].raw, h[k].served, h[j].served, name);
  }

  /** The fresh reading a served answer goes back to. */
  lemma Origin(h: seq<Event>, maxStale: nat, i: nat) returns (k: nat)
    requires IsHistory(h, maxStale) && i < |h| && Serves(h[i])
    ensures k <= i && h[k].Fresh? && h[k].served == h[i].served && (h[i].Fresh? ==> k == i)
    ensures forall m :: k < m < i ==> !h[m].Fresh?
  {
    if h[i].Fresh? {
      k := i;
    } else {
      k := CachedIsRecent(h, maxStale, i);
    }
  }

  /** Capability continuity, over every successful answer, fresh or cached: once a
      name has been served with a positive bandwidth it is served with one by every
      later answer that lists it, in every entry from the next fresh reading on, as
      long as each fresh reading in between lists the name. */
  lemma BandwidthSurvives(h: seq<Event>, maxStale: nat, i: nat, j: nat, name: string)
    requires IsHistory(h, maxStale) && i < j < |h| && Serves(h[i]) && Serves(h[j])
    requires PricesSome(h[i].served, name)
    requires forall k :: i < k < j && h[k].Fresh? ==> Lists(h[k].raw, name)
    ensures Lists(h[j].served, name) ==> PricesSome(h[j].served, name)
    ensures (exists k :: i < k <= j && h[k].Fresh?) ==> PricesAll(h[j].served, name)
    ensures h[j].Cached? ==> PricesSome(h[j].served, name)
  {
    hide IsHistory, PricesSome, PricesAll, Latest;
    var a := Origin(h, maxStale, i);
    var c := Origin(h, maxStale, j);
    if c <= i {
      assert c == a;
    } else {
      assert forall k :: a < k < c && h[k].Fresh? ==> k >= i;
      FreshSurvives(h, maxStale, a, c, name);
      FreshListsAlike(h, maxStale, c, name);
    }
  }

  /** The merge neither adds nor drops a name. */
  lemma FreshListsAlike(h: seq<Event>, maxStale: nat, i: nat, name: string)
    requires IsHistory(h, maxStale) && i < |h| && h[i].Fresh?
    ensures Lists(h[i].served, name) <==> Lists(h[i].raw, name)
  {
    hide Latest;
    assert Follows(h[..i], h[i], maxStale);
    var prev := LatestSystem(h[..i]);
    var before := if prev.Some? then prev.value.gpus else [];
    assert forall k :: 0 <= k < |h[i].raw.gpus| ==> IsMerged(h[i].raw.gpus[k], h[i].served.gpus[k], before);
  }

  /** Some transport reported exactly this bandwidth for this name, at or before event `i`. */
  ghost predicate Reported(h: seq<Event>, i: nat, name: string, bw: Option<real>) {
    exists k, m :: 0 <= k <= i && k < |h| && h[k].Fresh? && 0 <= m < |h[k].raw.gpus|
      && h[k].raw.gpus[m].name == name && h[k].raw.gpus[m].bandwidth == bw
  }

  /** No bandwidth is ever served, fresh or from the cache, that no transport
      reported for that name. */
  lemma {:induction false} ServedBandwidthWasReported(h: seq<Event>, maxStale: nat, i: nat, g: nat)
    requires IsHistory(h, maxStale) && i < |h| && Serves(h[i]) && g < |h[i].served.gpus|
    ensures Reported(h, i, h[i].served.gpus[g].name, h[i].served.gpus[g].bandwidth)
    decreases i
  {
    if h[i].Cached? {
      var k := CachedIsRecent(h, maxStale, i);
      ServedBandwidthWasReported(h, maxStale, k, g);
    } else {
      assert Follows(h[..i], h[i], maxStale);
      var prev := LatestSystem(h[..i]);
      var before := if prev.Some? then prev.value.gpus else [];
      var f, s := h[i].raw.gpus[g], h[i].served.gpus[g];
      assert IsMerged(f, s, before);
      if k: nat :| !Priced(f) && LastPriced(before, f.name, k) {
        var p := LatestIsSome(h[..i]);
        assert h[p].served.gpus[k] == before[k];
        ServedBandwidthWasReported(h, maxStale, p, k);
      } else {
        assert s.bandwidth == f.bandwidth;
      }
    }
  }

  // ---- The detector --------------------------------------------------------------------

  /** What a transport answers when asked; None when it is not configured. */
  type Answer = Option<Result<System, string>>

  class CapabilityDetector {
    const maxStale: nat
    var last: Option<System>
    var lastAt: int
    var transport: string
    ghost var history: seq<Event>

    ghost predicate Valid()
      reads this
    {
      && IsHistory(history, maxStale)
      && last == LatestSystem(history)
      && (last.Some? ==> lastAt == Latest(history).value.at)
    }

    constructor (maxStale: nat)
      ensures Valid() && this.maxStale == maxStale && history == []
    {
      this.maxStale := maxStale;
      last, lastAt, transport, history := None, 0, "", [];
    }

    /** Serves the first transport that answers, else the cache if it is fresh enough. */
    method Detect(now: int, api: Answer, exec: Answer) returns (r: Result<System, string>)
      requires Valid()
      modifies this
      ensures Valid()
      ensures |history| == |old(history)| + 1 && history[..|old(history)|] == old(history)
      ensures var e := history[|old(history)|];
              match FirstAnswer(api, exec)
              case Some(sys) => e.Fresh? && e.raw == sys && e.at == now && r == Ok(e.served)
              case None => !e.Fresh? && e.at == now && (r.Ok? <==> e.Cached?) && (r.Ok? ==> r.value == e.served)
      ensures api.Some? && api.value.Ok? ==>
                history[|old(history)|].Fresh? && history[|old(history)|].raw == api.value.value && transport == "api"
      ensures !(api.Some? && api.value.Ok?) && exec.Some? && exec.value.Ok? ==>
                history[|old(history)|].Fresh? && history[|old(history)|].raw == exec.value.value && transport == "exec"
      ensures !(api.Some? && api.value.Ok?) && !(exec.Some? && exec.value.Ok?) ==> !history[|old(history)|].Fresh?
      ensures FirstAnswer(api, exec).None? && r.Ok? ==> transport == "cache"
    {
      hide IsHistory, IsBackfill, Latest;
      var firstErr: Option<string> := None;
      var transports := [("api", api), ("exec", exec)];
      for i := 0 to 2
        invariant Valid() && history == old(history)
        invariant forall k :: 0 <= k < i ==> transports[k].1.None? || transports[k].1.value.Err?
      {
        var answer := transports[i].1;
        if answer.None? {
          continue;
        }
        if answer.value.Err? {
          if firstErr.None? {
            firstErr := Some(answer.value.error);
          }
          continue;
        }
        assert i == 1 ==> transports[0].1.None? || transports[0].1.value.Err?;
        transport := transports[i].0;
        var sys := BackfillBandwidth(answer.value.value, last);
        history := history + [Fresh(answer.value.value, sys, now)];
        ExtendHistory(old(history), history[|old(history)|], maxStale);
        last, lastAt := Some(sys), now;
        return Ok(sys);
      }
      assert transports[0].1.None? || transports[0].1.value.Err?;
      assert transports[1].1.None? || transports[1].1.value.Err?;
      if last.Some? && now - lastAt <= maxStale {
        transport := "cache";
        history := history + [Cached(last.value, now)];
        ExtendHistory(old(history), history[|old(history)|], maxStale);
        return Ok(last.value);
      }
      history := history + [Failed(now)];
      ExtendHistory(old(history), history[|old(history)|], maxStale);
      return Err(if firstErr.Some? then firstErr.value else "no llmfit transport configured");
    }
  }

  function FirstAnswer(api: Answer, exec: Answer): Option<System> {
    if api.Some? && api.value.Ok? then Some(api.value.value)
    else if exec.Some? && exec.value.Ok? then Some(exec.value.value)
    else None
  }

  lemma ExtendHistory(h: seq<Event>, e: Event, maxStale: nat)
    requires IsHistory(h, maxStale) && Follows(h, e, maxStale)
    ensures IsHistory(h + [e], maxStale)
    ensures Latest(h + [e]) == if e.Fresh? then Some(e) else Latest(h)
  {
    var g := h + [e];
    assert g[..|h|] == h;
    forall i | 0 <= i < |g|
      ensures Follows(g[..i], g[i], maxStale)
    {
      if i < |h| {
        assert g[..i] == h[..i];
      }
    }
  }
}
