/** Memoised resolution and event suppression
    (internal/modelclaim/controller.go). */
module ResolverCache {
  import opened Prelude
  import opened Resources
  import Text

  // ---- Model references ---------------------------------------------------------------

  predicate IsAlnum(c: char) {
    'A' <= c <= 'Z' || 'a' <= c <= 'z' || '0' <= c <= '9'
  }

  predicate IsSegment(s: string) {
    s != "" && IsAlnum(s[0]) && forall i :: 0 <= i < |s| ==> IsAlnum(s[i]) || s[i] in "._-"
  }

  /** name or org/name, each starting with a letter or digit. */
  predicate IsModelRef(s: string) {
    IsSegment(s) || exists k :: 0 <= k < |s| && s[k] == '/' && IsSegment(s[..k]) && IsSegment(s[k + 1..])
  }

  /** A valid reference can be neither empty nor a flag, and holds no separator. */
  lemma ModelRefIsPlain(s: string)
    requires IsModelRef(s)
    ensures s != "" && s[0] != '-' && '|' !in s
  {
    if !IsSegment(s) {
      var k :| 0 <= k < |s| && s[k] == '/' && IsSegment(s[..k]) && IsSegment(s[k + 1..]);
      assert s[..k][0] == s[0];
      forall i | 0 <= i < |s|
        ensures s[i] != '|'
      {
        if i < k {
          assert s[..k][i] == s[i];
        } else if i > k {
          assert s[k + 1..][i - k - 1] == s[i];
        }
      }
    }
  }

  /** Character by character: letters, digits, dots, underscores and dashes, at most one
      slash, and a letter or digit at the start and right behind the slash. */
  lemma ModelRefExactly(s: string)
    ensures IsModelRef(s) <==>
            && s != "" && IsAlnum(s[0])
            && (forall i :: 0 <= i < |s| ==> IsAlnum(s[i]) || s[i] in "._-/")
            && (forall i, j :: 0 <= i < j < |s| && s[i] == '/' ==> s[j] != '/')
            && (forall i :: 0 <= i < |s| && s[i] == '/' ==> i + 1 < |s| && IsAlnum(s[i + 1]))
  {
    if k :| 0 <= k < |s| && s[k] == '/' {
      SlashedRef(s, k);
    } else {
      assert forall i :: 0 <= i < |s| ==> s[i] != '/';
    }
  }

  lemma SlashedRef(s: string, k: nat)
    requires k < |s| && s[k] == '/'
    ensures IsModelRef(s) <==> IsSegment(s[..k]) && IsSegment(s[k + 1..])
    ensures IsSegment(s[..k]) && IsSegment(s[k + 1..]) <==>
            && IsAlnum(s[0])
            && (forall i :: 0 <= i < |s| ==> IsAlnum(s[i]) || s[i] in "._-/")
            && (forall i, j :: 0 <= i < j < |s| && s[i] == '/' ==> s[j] != '/')
            && (forall i :: 0 <= i < |s| && s[i] == '/' ==> i + 1 < |s| && IsAlnum(s[i + 1]))
  {
    var l, r := s[..k], s[k + 1..];
    assert forall i :: 0 <= i < k ==> l[i] == s[i];
    assert forall i :: k < i < |s| ==> r[i - k - 1] == s[i];
    assert !IsSegment(s);
    forall m | 0 <= m < |s| && m != k
      ensures !IsSegment(s[..m]) || !IsSegment(s[m + 1..])
    {
      if k < m {
        assert s[..m][k] == '/';
      } else {
        assert s[m + 1..][k - m - 1] == '/';
      }
    }
  }

  // ---- The cache key ----------------------------------------------------------------------

  /** What a resolution depends on. */
  datatype Tuple = Tuple(model: string, minTps: Text.Decimal, quant: string, efficiency: nat)

  function Key(t: Tuple): string {
    t.model + "|" + (Text.FormatDecimal(t.minTps) + "|" + (t.quant + "|" + Text.Itoa(t.efficiency)))
  }

  /** Different tuples never share a key: the model cannot contain the separator,
      and although the quantisation may, the efficiency behind it cannot. */
  lemma KeyInjective(t: Tuple, u: Tuple)
    requires IsModelRef(t.model) && IsModelRef(u.model)
    requires Key(t) == Key(u)
    ensures t == u
  {
    ModelRefIsPlain(t.model);
    ModelRefIsPlain(u.model);
    Text.FormatDecimalLacks(t.minTps, '|');
    Text.FormatDecimalLacks(u.minTps, '|');
    Text.ItoaLacks(t.efficiency, '|');
    Text.ItoaLacks(u.efficiency, '|');
    assert "|" == ['|'];
    var t1, u1 := t.quant + "|" + Text.Itoa(t.efficiency), u.quant + "|" + Text.Itoa(u.efficiency);
    var t2, u2 := Text.FormatDecimal(t.minTps) + "|" + t1, Text.FormatDecimal(u.minTps) + "|" + u1;
    Text.SplitAtFirst('|', t.model, t2, u.model, u2);
    Text.SplitAtFirst('|', Text.FormatDecimal(t.minTps), t1, Text.FormatDecimal(u.minTps), u1);
    Text.SplitAtLast('|', t.quant, Text.Itoa(t.efficiency), u.quant, Text.Itoa(u.efficiency));
    Text.FormatDecimalInjective(t.minTps, u.minTps);
    Text.ItoaInjective(t.efficiency, u.efficiency);
  }

  // ---- The cache -----------------------------------------------------------------------------

  const TTL: int := 600
  const MAX_ENTRIES: nat := 512

  type Answer = Result<Bounds, string>

  /** One call of the resolver: for what, when it started, what it said. */
  datatype Call = Call(tuple: Tuple, at: int, answer: Answer)

  datatype CacheEntry = CacheEntry(bounds: Bounds, expires: int)

  /** The entry records a successful call made for a tuple with that key. */
  ghost predicate Backs(calls: seq<Call>, key: string, e: CacheEntry, c: Call) {
    c in calls && IsModelRef(c.tuple.model) && Key(c.tuple) == key && c.answer == Ok(e.bounds) && e.expires == c.at + TTL
  }

  /** Within the last ten minutes the resolver answered this very tuple with these bounds. */
  ghost predicate Said(calls: seq<Call>, t: Tuple, b: Bounds, now: int) {
    exists c :: c in calls && c.tuple == t && c.answer == Ok(b) && now < c.at + 600
  }

  class Cache {
    var entries: map<string, CacheEntry>
    ghost var calls: seq<Call>

    ghost predicate Valid()
      reads this
    {
      && |entries| <= 512
      && forall k :: k in entries ==> exists c :: Backs(calls, k, entries[k], c)
    }

    constructor ()
      ensures Valid() && calls == [] && entries == map[]
    {
      entries, calls := map[], [];
    }

    /** The read under the lock. A hit is what the resolver answered for this very
        tuple less than ten minutes ago. */
    method Lookup(t: Tuple, now: int) returns (hit: Option<Bounds>)
      requires Valid() && IsModelRef(t.model)
      ensures hit.Some? ==> Said(calls, t, hit.value, now)
      ensures hit.Some? <==> Key(t) in entries && now < entries[Key(t)].expires
      ensures hit.Some? ==> hit.value == entries[Key(t)].bounds
    {
      hide IsModelRef, Key;
      var key := Key(t);
      if key in entries && now < entries[key].expires {
        ghost var c :| Backs(calls, key, entries[key], c);
        KeyInjective(t, c.tuple);
        return Some(entries[key].bounds);
      }
      return None;
    }

    /** The write under the lock, after the resolver answered a call begun at `start`. */
    method Store(t: Tuple, start: int, b: Bounds)
      requires Valid() && IsModelRef(t.model) && Call(t, start, Ok(b)) in calls
      modifies this`entries
      ensures Valid()
      ensures entries == (if |old(entries)| >= 512 then map[] else old(entries))[Key(t) := CacheEntry(b, start + TTL)]
    {
      hide IsModelRef, Key;
      var key := Key(t);
      if |entries| >= MAX_ENTRIES {
        entries := map[]; // full: start over
      }
      ghost var before := entries;
      entries := entries[key := CacheEntry(b, start + TTL)];
      assert entries.Keys == before.Keys + {key};
      assert Backs(calls, key, entries[key], Call(t, start, Ok(b)));
    }

    /** Answers from the cache, else asks the resolver, which would say `answer`.
        Failures are never stored. */
    method Resolve(t: Tuple, now: int, answer: Answer) returns (r: Answer)
      requires Valid() && IsModelRef(t.model)
      modifies this
      ensures Valid()
      ensures calls == old(calls) || (calls == old(calls) + [Call(t, now, answer)] && r == answer)
      ensures calls == old(calls) <==> Key(t) in old(entries) && now < old(entries)[Key(t)].expires
      ensures calls == old(calls) ==> Key(t) in old(entries) && r == Ok(old(entries)[Key(t)].bounds) && entries == old(entries)
      ensures r.Ok? ==> Said(calls, t, r.value, now)
      ensures r.Err? ==> entries == old(entries)
      ensures r.Ok? ==> Key(t) in entries && entries[Key(t)].bounds == r.value && now < entries[Key(t)].expires
    {
      hide IsModelRef, Key;
      var hit := Lookup(t, now);
      if hit.Some? {
        return Ok(hit.value);
      }
      ghost var before := calls;
      calls := calls + [Call(t, now, answer)];
      assert forall k, e, c :: Backs(before, k, e, c) ==> Backs(calls, k, e, c);
      assert calls[|before|] == Call(t, now, answer);
      if answer.Ok? {
        Store(t, now, answer.value);
      }
      return answer;
    }
  }

  // ---- Events ------------------------------------------------------------------------------------

  const MAX_REMEMBERED: nat := 4096

  datatype Note = Note(key: string, message: string)

  /** The last message emitted under a key. */
  ghost function LastUnder(emitted: seq<Note>, key: string): Option<string> {
    if emitted == [] then None
    else if emitted[|emitted| - 1].key == key then Some(emitted[|emitted| - 1].message)
    else LastUnder(emitted[..|emitted| - 1], key)
  }

  class Recorder {
    var lastEvent: map<string, string>
    ghost var emitted: seq<Note>

    ghost predicate Valid()
      reads this
    {
      && |lastEvent| <= 4096
      && forall k :: k in lastEvent ==> LastUnder(emitted, k) == Some(lastEvent[k])
    }

    constructor ()
      ensures Valid() && emitted == [] && lastEvent == map[]
    {
      lastEvent, emitted := map[], [];
    }

    /** Emits unless the same message was the last one under this key. A repeat gets
        through only after the memory was dropped for growing too large. */
    method Emit(key: string, message: string) returns (sent: bool)
      requires Valid()
      modifies this
      ensures Valid()
      ensures sent <==> GetOr(old(lastEvent), key, "") != message
      ensures emitted == if sent then old(emitted) + [Note(key, message)] else old(emitted)
      ensures !sent ==> lastEvent == old(lastEvent)
      ensures sent && LastUnder(old(emitted), key) == Some(message) ==> key !in old(lastEvent)
    {
      if GetOr(lastEvent, key, "") == message {
        return false;
      }
      ghost var before := lastEvent;
      lastEvent := lastEvent[key := message];
      ghost var notes := emitted;
      emitted := emitted + [Note(key, message)];
      assert emitted[..|notes|] == notes;
      assert lastEvent.Keys == before.Keys + {key};
      if |lastEvent| > MAX_REMEMBERED {
        lastEvent := map[key := message];
      }
      return true;
    }
  }
}
