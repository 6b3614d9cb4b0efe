/** Boards that share a threshold pair collapse into one emitted clause
    (internal/modelclaim/nvidia.go). */
module MigGroups {
  import opened Prelude
  import opened Resources
  import opened Boards
  import opened MigPhysics
  import Text
  import Sorting

  datatype MigGroup = MigGroup(thresholdMiB: nat, minSMs: nat, products: seq<string>)

  /** The threshold pair of an admissible board. */
  function MigPair(board: NvidiaBoard, b: Bounds, minComputeTFLOPS: nat): Option<(nat, nat)> {
    var thr, sms := MigThresholdMiB(board, b), MigMinSMs(board, minComputeTFLOPS);
    if thr.Some? && sms.Some? then Some((thr.value, sms.value)) else None
  }

  predicate GroupLess(g: MigGroup, h: MigGroup) {
    if g.thresholdMiB != h.thresholdMiB then g.thresholdMiB < h.thresholdMiB else g.minSMs < h.minSMs
  }

  /** The map key "thr/minSMs". */
  function GroupKey(thresholdMiB: nat, minSMs: nat): string {
    Text.Itoa(thresholdMiB) + "/" + Text.Itoa(minSMs)
  }

  lemma GroupKeyInjective(t: nat, s: nat, t': nat, s': nat)
    requires GroupKey(t, s) == GroupKey(t', s')
    ensures t == t' && s == s'
  {
    Text.ItoaLacks(t, '/');
    Text.ItoaLacks(t', '/');
    assert "/" == ['/'];
    Text.SplitAtFirst('/', Text.Itoa(t), Text.Itoa(s), Text.Itoa(t'), Text.Itoa(s'));
    Text.ItoaInjective(t, t');
    Text.ItoaInjective(s, s');
  }

  /** `p` is an admissible board of the table with the group's pair. */
  ghost predicate Belongs(t: BoardTable, b: Bounds, minComputeTFLOPS: nat, g: MigGroup, p: string) {
    p in t.boards && MigPair(t.boards[p], b, minComputeTFLOPS) == Some((g.thresholdMiB, g.minSMs))
  }

  ghost predicate IsGroup(t: BoardTable, b: Bounds, minComputeTFLOPS: nat, g: MigGroup) {
    && g.products != []
    && Sorting.StrictlySorted(g.products, Text.Less)
    && forall p :: p in g.products <==> Belongs(t, b, minComputeTFLOPS, g, p)
  }

  /** Groups in strict order, each listing exactly the boards of its pair, and
      every admissible board listed somewhere. */
  ghost predicate IsMigGroups(t: BoardTable, b: Bounds, minComputeTFLOPS: nat, gs: seq<MigGroup>) {
    && Sorting.StrictlySorted(gs, GroupLess)
    && (forall g :: g in gs ==> IsGroup(t, b, minComputeTFLOPS, g))
    && (forall p :: p in t.boards && MigPair(t.boards[p], b, minComputeTFLOPS).Some? ==>
          exists g :: g in gs && p in g.products)
  }

  lemma GroupLessIsOrdering()
    ensures Sorting.Ordering(GroupLess)
  {
  }

  /** Every admissible board stands in exactly one group, no other board in any. */
  lemma GroupsPartitionAdmissible(t: BoardTable, b: Bounds, minComputeTFLOPS: nat, gs: seq<MigGroup>, p: string)
    requires IsMigGroups(t, b, minComputeTFLOPS, gs)
    ensures (p in t.boards && MigPair(t.boards[p], b, minComputeTFLOPS).Some?)
            <==> exists i :: 0 <= i < |gs| && p in gs[i].products
    ensures forall i, j :: 0 <= i < |gs| && 0 <= j < |gs| && p in gs[i].products && p in gs[j].products ==> i == j
  {
    forall i | 0 <= i < |gs| && p in gs[i].products
      ensures Belongs(t, b, minComputeTFLOPS, gs[i], p)
    {
      assert gs[i] in gs;
    }
    forall i, j | 0 <= i < j < |gs|
      ensures !(p in gs[i].products && p in gs[j].products)
    {
      assert GroupLess(gs[i], gs[j]);
    }
  }

  /** In the listing a later group has a higher threshold, or the same one and more
      multiprocessors; and products within a group ascend. */
  lemma GroupsAscend(t: BoardTable, b: Bounds, minComputeTFLOPS: nat, gs: seq<MigGroup>, i: nat, j: nat)
    requires IsMigGroups(t, b, minComputeTFLOPS, gs) && i < j < |gs|
    ensures gs[i].thresholdMiB < gs[j].thresholdMiB
            || (gs[i].thresholdMiB == gs[j].thresholdMiB && gs[i].minSMs < gs[j].minSMs)
    ensures forall k, m :: 0 <= k < m < |gs[i].products| ==> Text.Less(gs[i].products[k], gs[i].products[m])
  {
    assert GroupLess(gs[i], gs[j]);
    assert gs[i] in gs;
  }

  lemma SameGroup(t: BoardTable, b: Bounds, minComputeTFLOPS: nat, g: MigGroup, hs: seq<MigGroup>)
    requires IsGroup(t, b, minComputeTFLOPS, g) && IsMigGroups(t, b, minComputeTFLOPS, hs)
    ensures g in hs
  {
    var p := g.products[0];
    assert p in g.products;
    var h :| h in hs && p in h.products;
    assert Belongs(t, b, minComputeTFLOPS, g, p) && Belongs(t, b, minComputeTFLOPS, h, p);
    assert forall q :: Belongs(t, b, minComputeTFLOPS, g, q) <==> Belongs(t, b, minComputeTFLOPS, h, q);
    Text.LessIsOrdering();
    Sorting.StrictlySortedUnique(g.products, h.products, Text.Less);
  }

  /** The groups are a function of the table's contents: no iteration order shows. */
  lemma MigGroupsUnique(t: BoardTable, b: Bounds, minComputeTFLOPS: nat, gs: seq<MigGroup>, hs: seq<MigGroup>)
    requires IsMigGroups(t, b, minComputeTFLOPS, gs) && IsMigGroups(t, b, minComputeTFLOPS, hs)
    ensures gs == hs
  {
    forall g
      ensures g in gs <==> g in hs
    {
      if g in gs {
        SameGroup(t, b, minComputeTFLOPS, g, hs);
      }
      if g in hs {
        SameGroup(t, b, minComputeTFLOPS, g, gs);
      }
    }
    GroupLessIsOrdering();
    Sorting.StrictlySortedUnique(gs, hs, GroupLess);
  }

  // ---- The computation ------------------------------------------------------

  /** A board as the grouping loop sees it. */
  datatype Item = Item(name: string, pair: Option<(nat, nat)>)

  ghost function Items(all: seq<NvidiaBoard>, b: Bounds, minComputeTFLOPS: nat): seq<Item> {
    seq(|all|, i requires 0 <= i < |all| => Item(all[i].productName, MigPair(all[i], b, minComputeTFLOPS)))
  }

  ghost predicate InPrefix(items: seq<Item>, n: nat, g: MigGroup, p: string)
    requires n <= |items|
  {
    exists i :: 0 <= i < n && items[i] == Item(p, Some((g.thresholdMiB, g.minSMs)))
  }

  ghost predicate HoldsPrefix(items: seq<Item>, n: nat, k: string, g: MigGroup)
    requires n <= |items|
  {
    && k == GroupKey(g.thresholdMiB, g.minSMs)
    && g.products != []
    && Sorting.Distinct(g.products)
    && forall p :: p in g.products <==> InPrefix(items, n, g, p)
  }

  /** What the keyed map holds after the first `n` boards. */
  ghost predicate Collected(items: seq<Item>, n: nat, byKey: map<string, MigGroup>)
    requires n <= |items|
  {
    && (forall k :: k in byKey ==> HoldsPrefix(items, n, k, byKey[k]))
    && (forall i :: 0 <= i < n && items[i].pair.Some? ==>
          GroupKey(items[i].pair.value.0, items[i].pair.value.1) in byKey)
  }

  ghost predicate UniqueNames(items: seq<Item>) {
    forall i, j :: 0 <= i < j < |items| ==> items[i].name != items[j].name
  }

  method GroupByPair(t: BoardTable, b: Bounds, minComputeTFLOPS: nat, all: seq<NvidiaBoard>)
    returns (byKey: map<string, MigGroup>)
    requires IsAll(t, all)
    ensures Collected(Items(all, b, minComputeTFLOPS), |all|, byKey)
  {
    ghost var items := Items(all, b, minComputeTFLOPS);
    ItemNamesUnique(t, b, minComputeTFLOPS, all);
    byKey := map[];
    for n := 0 to |all|
      invariant Collected(items, n, byKey)
    {
      var board := all[n];
      assert items[n] == Item(board.productName, MigPair(board, b, minComputeTFLOPS));
      var thr := MigThresholdMiB(board, b);
      var sms := MigMinSMs(board, minComputeTFLOPS);
      if thr.Some? && sms.Some? {
        var key := GroupKey(thr.value, sms.value);
        var g := if key in byKey then byKey[key] else MigGroup(thr.value, sms.value, []);
        CollectOne(items, n, byKey, g);
        byKey := byKey[key := g.(products := g.products + [board.productName])];
      } else {
        PrefixUnchanged(items, n, byKey);
      }
    }
  }

  lemma ItemNamesUnique(t: BoardTable, b: Bounds, minComputeTFLOPS: nat, all: seq<NvidiaBoard>)
    requires IsAll(t, all)
    ensures UniqueNames(Items(all, b, minComputeTFLOPS))
  {
    forall i, j | 0 <= i < j < |all|
      ensures all[i].productName != all[j].productName
    {
      assert BoardLess(all[i], all[j]);
      Text.LessIrreflexive(all[i].productName);
    }
  }

  lemma PrefixUnchanged(items: seq<Item>, n: nat, byKey: map<string, MigGroup>)
    requires n < |items| && Collected(items, n, byKey) && items[n].pair.None?
    ensures Collected(items, n + 1, byKey)
  {
    forall k | k in byKey
      ensures HoldsPrefix(items, n + 1, k, byKey[k])
    {
      PrefixStep(items, n, byKey[k]);
    }
  }

  lemma PrefixStep(items: seq<Item>, n: nat, g: MigGroup)
    requires n < |items|
    ensures forall p :: InPrefix(items, n + 1, g, p) <==>
      InPrefix(items, n, g, p) || items[n] == Item(p, Some((g.thresholdMiB, g.minSMs)))
  {
  }

  /** Appending board `n` to the group of its pair. */
  lemma CollectOne(items: seq<Item>, n: nat, byKey: map<string, MigGroup>, g: MigGroup)
    requires n < |items| && UniqueNames(items) && Collected(items, n, byKey) && items[n].pair.Some?
    requires
      var (thr, sms) := items[n].pair.value;
      g == if GroupKey(thr, sms) in byKey then byKey[GroupKey(thr, sms)] else MigGroup(thr, sms, [])
    ensures
      var key := GroupKey(items[n].pair.value.0, items[n].pair.value.1);
      Collected(items, n + 1, byKey[key := g.(products := g.products + [items[n].name])])
  {
    var (thr, sms) := items[n].pair.value;
    var key := GroupKey(thr, sms);
    var after := byKey[key := g.(products := g.products + [items[n].name])];
    if key in byKey {
      GroupKeyInjective(g.thresholdMiB, g.minSMs, thr, sms);
    }
    assert forall p :: p in g.products <==> InPrefix(items, n, g, p);
    assert items[n].name !in g.products;
    forall k | k in after
      ensures HoldsPrefix(items, n + 1, k, after[k])
    {
      PrefixStep(items, n, after[k]);
      if k == key {
        var names := after[key].products;
        assert Sorting.Distinct(names);
        assert forall p :: p in names <==> p in g.products || p == items[n].name;
        assert forall p :: InPrefix(items, n, after[key], p) <==> InPrefix(items, n, g, p);
      } else {
        assert HoldsPrefix(items, n, k, byKey[k]);
      }
    }
  }

  lemma CollectedIsGroup(t: BoardTable, b: Bounds, minComputeTFLOPS: nat,
                         all: seq<NvidiaBoard>, byKey: map<string, MigGroup>, k: string, sorted: seq<string>)
    requires IsAll(t, all) && Collected(Items(all, b, minComputeTFLOPS), |all|, byKey) && k in byKey
    requires multiset(sorted) == multiset(byKey[k].products)
    requires Sorting.Sorted(sorted, Text.Less) && Sorting.Distinct(sorted)
    ensures IsGroup(t, b, minComputeTFLOPS, byKey[k].(products := sorted))
  {
    var g := byKey[k];
    Sorting.SameElements(sorted, g.products);
    forall i, j | 0 <= i < j < |sorted|
      ensures Text.Less(sorted[i], sorted[j])
    {
      Text.LessTotal(sorted[i], sorted[j]);
    }
    assert |multiset(sorted)| == |multiset(g.products)|;
    var items := Items(all, b, minComputeTFLOPS);
    assert HoldsPrefix(items, |all|, k, g);
    forall p
      ensures InPrefix(items, |all|, g, p) <==> Belongs(t, b, minComputeTFLOPS, g, p)
    {
      if Belongs(t, b, minComputeTFLOPS, g, p) {
        assert t.boards[p] in all;
        var i :| 0 <= i < |all| && all[i] == t.boards[p];
        assert items[i] == Item(p, Some((g.thresholdMiB, g.minSMs)));
      }
      if InPrefix(items, |all|, g, p) {
        var i :| 0 <= i < |all| && items[i] == Item(p, Some((g.thresholdMiB, g.minSMs)));
        assert all[i] in all;
      }
    }
  }

  /** Walks the keyed map in an arbitrary order, sorting each product list. */
  method ListGroups(t: BoardTable, b: Bounds, minComputeTFLOPS: nat,
                    ghost all: seq<NvidiaBoard>, byKey: map<string, MigGroup>)
    returns (groups: seq<MigGroup>)
    requires IsAll(t, all) && Collected(Items(all, b, minComputeTFLOPS), |all|, byKey)
    ensures Sorting.Distinct(groups)
    ensures forall g :: g in groups ==> IsGroup(t, b, minComputeTFLOPS, g)
    ensures forall k :: k in byKey ==> HasKey(groups, k)
  {
    Text.LessIsOrdering();
    groups := [];
    var todo := byKey.Keys;
    while todo != {}
      invariant todo <= byKey.Keys
      invariant forall g :: g in groups ==> IsGroup(t, b, minComputeTFLOPS, g)
      invariant forall g :: g in groups ==> GroupKey(g.thresholdMiB, g.minSMs) !in todo
      invariant forall k :: k in byKey && k !in todo ==> HasKey(groups, k)
      invariant Sorting.Distinct(groups)
      decreases todo
    {
      var k :| k in todo;
      assert HoldsPrefix(Items(all, b, minComputeTFLOPS), |all|, k, byKey[k]);
      var sorted := Sorting.Sort(byKey[k].products, Text.Less);
      CollectedIsGroup(t, b, minComputeTFLOPS, all, byKey, k, sorted);
      var g := byKey[k].(products := sorted);
      assert GroupKey(g.thresholdMiB, g.minSMs) == k;
      HasKeyExtends(groups, g);
      groups := groups + [g];
      todo := todo - {k};
    }
  }

  ghost predicate HasKey(groups: seq<MigGroup>, k: string) {
    exists g :: g in groups && GroupKey(g.thresholdMiB, g.minSMs) == k
  }

  lemma HasKeyExtends(groups: seq<MigGroup>, g: MigGroup)
    ensures forall h :: h in groups + [g] <==> h in groups || h == g
    ensures forall k :: HasKey(groups, k) ==> HasKey(groups + [g], k)
    ensures HasKey(groups + [g], GroupKey(g.thresholdMiB, g.minSMs))
  {
    assert forall h :: h in groups + [g] <==> h in groups || h == g;
  }

  /** The admissible groups, sorted for deterministic output. */
  method ComputeMigGroups(t: BoardTable, b: Bounds, minComputeTFLOPS: nat) returns (groups: seq<MigGroup>)
    ensures IsMigGroups(t, b, minComputeTFLOPS, groups)
  {
    var all := All(t);
    var byKey := GroupByPair(t, b, minComputeTFLOPS, all);
    var unsorted := ListGroups(t, b, minComputeTFLOPS, all, byKey);
    GroupLessIsOrdering();
    groups := Sorting.Sort(unsorted, GroupLess);
    Sorting.SameElements(unsorted, groups);
    AssembledGroups(t, b, minComputeTFLOPS, all, byKey, groups);
  }

  lemma AssembledGroups(t: BoardTable, b: Bounds, minComputeTFLOPS: nat,
                        all: seq<NvidiaBoard>, byKey: map<string, MigGroup>, groups: seq<MigGroup>)
    requires IsAll(t, all) && Collected(Items(all, b, minComputeTFLOPS), |all|, byKey)
    requires Sorting.Sorted(groups, GroupLess) && Sorting.Distinct(groups)
    requires forall g :: g in groups ==> IsGroup(t, b, minComputeTFLOPS, g)
    requires forall k :: k in byKey ==> HasKey(groups, k)
    ensures IsMigGroups(t, b, minComputeTFLOPS, groups)
  {
    forall i, j | 0 <= i < j < |groups|
      ensures GroupLess(groups[i], groups[j])
    {
      var g, h := groups[i], groups[j];
      assert g in groups && h in groups;
      assert (forall p :: Belongs(t, b, minComputeTFLOPS, g, p) <==> Belongs(t, b, minComputeTFLOPS, h, p))
          || g.thresholdMiB != h.thresholdMiB || g.minSMs != h.minSMs;
      if g.thresholdMiB == h.thresholdMiB && g.minSMs == h.minSMs {
        Text.LessIsOrdering();
        Sorting.StrictlySortedUnique(g.products, h.products, Text.Less);
        assert false;
      }
    }
    forall p | p in t.boards && MigPair(t.boards[p], b, minComputeTFLOPS).Some?
      ensures exists g :: g in groups && p in g.products
    {
      var pair := MigPair(t.boards[p], b, minComputeTFLOPS).value;
      assert t.boards[p] in all;
      var i :| 0 <= i < |all| && all[i] == t.boards[p];
      assert Items(all, b, minComputeTFLOPS)[i].pair == Some(pair);
      assert HasKey(groups, GroupKey(pair.0, pair.1));
      var g :| g in groups && GroupKey(g.thresholdMiB, g.minSMs) == GroupKey(pair.0, pair.1);
      GroupKeyInjective(g.thresholdMiB, g.minSMs, pair.0, pair.1);
      assert Belongs(t, b, minComputeTFLOPS, g, p);
    }
  }
}
