/** The contract of Go's sort package, and why a strict order makes it canonical. */
module Sorting {

  /** A strict weak order: what sort.Slice demands of its comparison. */
  ghost predicate Ordering<T(!new)>(less: (T, T) -> bool) {
    && (forall x :: !less(x, x))
    && (forall x, y, z :: less(x, y) && less(y, z) ==> less(x, z))
    && (forall x, y, z :: !less(x, y) && !less(y, z) ==> !less(x, z))
  }

  ghost predicate Sorted<T>(s: seq<T>, less: (T, T) -> bool) {
    forall i, j :: 0 <= i < j < |s| ==> !less(s[j], s[i])
  }

  ghost predicate StrictlySorted<T>(s: seq<T>, less: (T, T) -> bool) {
    forall i, j :: 0 <= i < j < |s| ==> less(s[i], s[j])
  }

  ghost predicate Distinct<T>(s: seq<T>) {
    forall i, j :: 0 <= i < j < |s| ==> s[i] != s[j]
  }

  lemma SameElements<T>(a: seq<T>, b: seq<T>)
    requires multiset(a) == multiset(b)
    ensures forall x :: x in a <==> x in b
  {
    forall x
      ensures x in a <==> x in b
    {
      assert x in a <==> x in multiset(a);
      assert x in b <==> x in multiset(b);
    }
  }

  lemma {:induction false} DistinctCounts<T>(s: seq<T>)
    ensures Distinct(s) <==> forall x :: x in multiset(s) ==> multiset(s)[x] == 1
  {
    if s != [] {
      var init, last := s[..|s| - 1], s[|s| - 1];
      DistinctCounts(init);
      assert s == init + [last];
      assert multiset(s) == multiset(init) + multiset{last};
      if Distinct(s) {
        assert last !in init;
      } else if Distinct(init) {
        var i, j :| 0 <= i < j < |s| && s[i] == s[j];
        assert j == |s| - 1 && init[i] == last;
        assert multiset(s)[last] >= 2;
      } else {
        var x :| x in multiset(init) && multiset(init)[x] != 1;
        assert multiset(s)[x] > 1;
      }
    }
  }

  lemma DistinctPermutation<T>(a: seq<T>, b: seq<T>)
    requires multiset(a) == multiset(b) && Distinct(b)
    ensures Distinct(a)
  {
    DistinctCounts(a);
    DistinctCounts(b);
  }

  /** Any sorted permutation; nothing is promised about the order of ties. */
  method Sort<T(!new)>(s: seq<T>, less: (T, T) -> bool) returns (r: seq<T>)
    requires Ordering(less)
    ensures multiset(r) == multiset(s)
    ensures Sorted(r, less)
    ensures Distinct(s) ==> Distinct(r)
  {
    r := [];
    for i := 0 to |s|
      invariant multiset(r) == multiset(s[..i])
      invariant Sorted(r, less)
      invariant Distinct(s[..i]) ==> Distinct(r)
    {
      assert s[..i + 1] == s[..i] + [s[i]];
      assert Distinct(s[..i + 1]) ==> Distinct(s[..i]) && s[i] !in s[..i];
      SameElements(r, s[..i]);
      r := Insert(r, s[i], less);
    }
    assert s[..|s|] == s;
  }

  method Insert<T(!new)>(r: seq<T>, x: T, less: (T, T) -> bool) returns (out: seq<T>)
    requires Ordering(less) && Sorted(r, less)
    ensures multiset(out) == multiset(r) + multiset{x}
    ensures Sorted(out, less)
    ensures Distinct(r) && x !in r ==> Distinct(out)
  {
    var k := |r|;
    while k > 0 && less(x, r[k - 1])
      invariant 0 <= k <= |r|
      invariant forall m :: k <= m < |r| ==> less(x, r[m])
    {
      k := k - 1;
    }
    InsertKeepsSorted(r, k, x, less);
    InsertKeepsElements(r, k, x);
    out := r[..k] + [x] + r[k..];
  }

  lemma InsertKeepsElements<T>(r: seq<T>, k: nat, x: T)
    requires k <= |r|
    ensures multiset(r[..k] + [x] + r[k..]) == multiset(r) + multiset{x}
    ensures Distinct(r) && x !in r ==> Distinct(r[..k] + [x] + r[k..])
  {
    assert r == r[..k] + r[k..];
    var out := r[..k] + [x] + r[k..];
    forall i, j | Distinct(r) && x !in r && 0 <= i < j < |out|
      ensures out[i] != out[j]
    {
      var i', j' := if i < k then i else i - 1, if j < k then j else j - 1;
      if i != k && j != k {
        assert out[i] == r[i'] && out[j] == r[j'];
      }
    }
  }

  lemma InsertKeepsSorted<T(!new)>(r: seq<T>, k: nat, x: T, less: (T, T) -> bool)
    requires Ordering(less) && Sorted(r, less) && k <= |r|
    requires k > 0 ==> !less(x, r[k - 1])
    requires forall m :: k <= m < |r| ==> less(x, r[m])
    ensures Sorted(r[..k] + [x] + r[k..], less)
  {
    var out := r[..k] + [x] + r[k..];
    forall i, j | 0 <= i < j < |out|
      ensures !less(out[j], out[i])
    {
      if j == k && i < k - 1 {
        assert !less(x, r[k - 1]) && !less(r[k - 1], r[i]);
      } else if i == k {
        assert less(x, r[j - 1]) && !less(x, x);
      }
    }
  }

  /** Two strictly sorted sequences over the same elements are the same sequence,
      so the order in which they were collected cannot matter. */
  lemma {:induction false} StrictlySortedUnique<T(!new)>(a: seq<T>, b: seq<T>, less: (T, T) -> bool)
    requires Ordering(less)
    requires StrictlySorted(a, less) && StrictlySorted(b, less)
    requires forall x :: x in a <==> x in b
    ensures a == b
  {
    if b != [] {
      assert b[0] in a;
    }
    if a != [] {
      assert a[0] in b;
      assert b[0] in a;
      FirstIsLeast(a, b[0], less);
      FirstIsLeast(b, a[0], less);
      forall x
        ensures x in a[1..] <==> x in b[1..]
      {
        TailMembership(a, x, less);
        TailMembership(b, x, less);
      }
      StrictlySortedUnique(a[1..], b[1..], less);
      assert a == [a[0]] + a[1..] && b == [b[0]] + b[1..];
    }
  }

  lemma FirstIsLeast<T(!new)>(s: seq<T>, x: T, less: (T, T) -> bool)
    requires s != [] && x in s && StrictlySorted(s, less)
    ensures x == s[0] || less(s[0], x)
  {
    var i :| 0 <= i < |s| && s[i] == x;
  }

  lemma TailMembership<T(!new)>(s: seq<T>, x: T, less: (T, T) -> bool)
    requires s != [] && Ordering(less) && StrictlySorted(s, less)
    ensures x in s[1..] <==> x in s && x != s[0]
  {
    if x in s[1..] {
      var i :| 0 <= i < |s[1..]| && s[1..][i] == x;
      assert less(s[0], s[i + 1]);
    }
    if x in s && x != s[0] {
      var i :| 0 <= i < |s| && s[i] == x;
      assert s[1..][i - 1] == x;
    }
  }
}
