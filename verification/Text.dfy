/** String facts: lexicographic order, decimal rendering, separators, trimming. */
module Text {
  import Sorting

  /** Go's `<` on strings. */
  predicate Less(a: string, b: string) {
    if b == [] then false
    else if a == [] then true
    else if a[0] != b[0] then a[0] < b[0]
    else Less(a[1..], b[1..])
  }

  lemma {:induction false} LessIrreflexive(a: string)
    ensures !Less(a, a)
  {
    if a != [] {
      LessIrreflexive(a[1..]);
    }
  }

  lemma {:induction false} LessTotal(a: string, b: string)
    ensures Less(a, b) || a == b || Less(b, a)
  {
    if a != [] && b != [] && a[0] == b[0] {
      LessTotal(a[1..], b[1..]);
      if a[1..] == b[1..] {
        assert a == [a[0]] + a[1..] == b;
      }
    }
  }

  lemma {:induction false} LessTransitive(a: string, b: string, c: string)
    requires Less(a, b) && Less(b, c)
    ensures Less(a, c)
  {
    if a != [] && a[0] == b[0] == c[0] {
      LessTransitive(a[1..], b[1..], c[1..]);
    }
  }

  lemma LessIsOrdering()
    ensures Sorting.Ordering(Less)
  {
    forall a, b, c: string
      ensures !Less(a, a)
      ensures Less(a, b) && Less(b, c) ==> Less(a, c)
      ensures !Less(a, b) && !Less(b, c) ==> !Less(a, c)
    {
      LessIrreflexive(a);
      if Less(a, b) && Less(b, c) {
        LessTransitive(a, b, c);
      }
      if !Less(a, b) && !Less(b, c) && Less(a, c) {
        LessTotal(a, b);
        LessTotal(b, c);
        if Less(b, a) {
          LessTransitive(b, a, c);
        }
      }
    }
  }

  // ---- Decimal rendering -------------------------------------------------

  const DIGITS: string := "0123456789"

  predicate IsDigit(c: char) {
    '0' <= c <= '9'
  }

  /** strconv.FormatInt(n, 10) for a non-negative n. */
  function Itoa(n: nat): string {
    if n < 10 then [DIGITS[n]] else Itoa(n / 10) + [DIGITS[n % 10]]
  }

  function DigitValue(c: char): nat
    requires IsDigit(c)
  {
    c as nat - '0' as nat
  }

  /** Reads a digit string back. */
  function Atoi(s: string): nat
    requires forall i :: 0 <= i < |s| ==> IsDigit(s[i])
  {
    if s == [] then 0 else Atoi(s[..|s| - 1]) * 10 + DigitValue(s[|s| - 1])
  }

  lemma DigitRoundTrip(n: nat)
    requires n < 10
    ensures IsDigit(DIGITS[n]) && DigitValue(DIGITS[n]) == n
  {
  }

  lemma {:induction false} ItoaRoundTrip(n: nat)
    ensures forall i :: 0 <= i < |Itoa(n)| ==> IsDigit(Itoa(n)[i])
    ensures Atoi(Itoa(n)) == n
  {
    DigitRoundTrip(n % 10);
    if n < 10 {
      assert Itoa(n)[..0] == [];
    } else {
      ItoaRoundTrip(n / 10);
      assert Itoa(n)[..|Itoa(n)| - 1] == Itoa(n / 10);
    }
  }

  lemma ItoaInjective(m: nat, n: nat)
    requires Itoa(m) == Itoa(n)
    ensures m == n
  {
    ItoaRoundTrip(m);
    ItoaRoundTrip(n);
  }

  lemma ItoaLacks(n: nat, c: char)
    requires !IsDigit(c)
    ensures c !in Itoa(n)
  {
    ItoaRoundTrip(n);
  }

  // ---- Decimal fractions ---------------------------------------------------

  predicate AllDigits(s: string) {
    forall i :: 0 <= i < |s| ==> IsDigit(s[i])
  }

  /** The shortest decimal that denotes a floating-point number: sign, whole part,
      and the digits behind the point, "" when there are none. */
  datatype Shortest = Shortest(negative: bool, whole: nat, fraction: string)

  type Decimal = d: Shortest | AllDigits(d.fraction) witness Shortest(false, 0, "")

  /** strconv.FormatFloat(x, 'f', -1, 64). */
  function FormatDecimal(d: Decimal): string {
    (if d.negative then "-" else "") + Unsigned(d)
  }

  function Unsigned(d: Decimal): string {
    Itoa(d.whole) + Tail(d)
  }

  function Tail(d: Decimal): string {
    if d.fraction == "" then "" else "." + d.fraction
  }

  lemma FormatDecimalLacks(d: Decimal, c: char)
    requires !IsDigit(c) && c != '-' && c != '.'
    ensures c !in FormatDecimal(d)
  {
    ItoaLacks(d.whole, c);
    assert c !in d.fraction;
    assert c !in Tail(d);
  }

  lemma UnsignedStartsWithDigit(d: Decimal)
    ensures Unsigned(d) != "" && IsDigit(Unsigned(d)[0])
  {
    ItoaRoundTrip(d.whole);
    assert Itoa(d.whole) != "";
    assert Unsigned(d)[0] == Itoa(d.whole)[0];
  }

  lemma PointIffFraction(d: Decimal)
    ensures '.' in Unsigned(d) <==> d.fraction != ""
  {
    ItoaLacks(d.whole, '.');
    if d.fraction != "" {
      assert Unsigned(d)[|Itoa(d.whole)|] == '.';
    }
  }

  lemma UnsignedInjective(d: Decimal, e: Decimal)
    requires Unsigned(d) == Unsigned(e)
    ensures d.whole == e.whole && d.fraction == e.fraction
  {
    ItoaLacks(d.whole, '.');
    ItoaLacks(e.whole, '.');
    if d.fraction != "" && e.fraction != "" {
      assert "." == ['.'];
      assert Unsigned(d) == Itoa(d.whole) + ['.'] + d.fraction;
      assert Unsigned(e) == Itoa(e.whole) + ['.'] + e.fraction;
      SplitAtFirst('.', Itoa(d.whole), d.fraction, Itoa(e.whole), e.fraction);
    } else {
      PointIffFraction(d);
      PointIffFraction(e);
      assert Unsigned(d) == Itoa(d.whole) && Unsigned(e) == Itoa(e.whole);
    }
    ItoaInjective(d.whole, e.whole);
  }

  /** Different numbers never print alike. */
  lemma FormatDecimalInjective(d: Decimal, e: Decimal)
    requires FormatDecimal(d) == FormatDecimal(e)
    ensures d == e
  {
    UnsignedStartsWithDigit(d);
    UnsignedStartsWithDigit(e);
    assert d.negative ==> FormatDecimal(d)[0] == '-' && FormatDecimal(d)[1..] == Unsigned(d);
    assert e.negative ==> FormatDecimal(e)[0] == '-' && FormatDecimal(e)[1..] == Unsigned(e);
    assert !d.negative ==> FormatDecimal(d) == Unsigned(d);
    assert !e.negative ==> FormatDecimal(e) == Unsigned(e);
    UnsignedInjective(d, e);
  }

  // ---- Separators --------------------------------------------------------

  /** Splitting at the first separator is unambiguous. */
  lemma SplitAtFirst(sep: char, a: string, b: string, x: string, y: string)
    requires sep !in a && sep !in x
    requires a + [sep] + b == x + [sep] + y
    ensures a == x && b == y
  {
    var l := a + [sep] + b;
    var r := x + [sep] + y;
    assert l[|a|] == sep && r[|x|] == sep;
    assert forall i :: 0 <= i < |a| ==> l[i] == a[i] != sep;
    assert forall i :: 0 <= i < |x| ==> r[i] == x[i] != sep;
    assert |a| == |x|;
    assert a == l[..|a|] && x == r[..|x|];
    assert b == l[|a| + 1..] && y == r[|x| + 1..];
  }

  /** Splitting at the last separator is unambiguous. */
  lemma SplitAtLast(sep: char, a: string, b: string, x: string, y: string)
    requires sep !in b && sep !in y
    requires a + [sep] + b == x + [sep] + y
    ensures a == x && b == y
  {
    var l := a + [sep] + b;
    var r := x + [sep] + y;
    assert l[|a|] == sep && r[|x|] == sep;
    assert forall i :: |a| < i < |l| ==> l[i] == b[i - |a| - 1] != sep;
    assert forall i :: |x| < i < |r| ==> r[i] == y[i - |x| - 1] != sep;
    assert |a| == |x|;
    assert a == l[..|a|] && x == r[..|x|];
    assert b == l[|a| + 1..] && y == r[|x| + 1..];
  }

  // ---- Trimming ----------------------------------------------------------

  /** unicode.IsSpace. */
  predicate IsSpace(c: char) {
    || c in "\t\n\r \U{0B}\U{0C}\U{85}\U{A0}\U{1680}\U{2028}\U{2029}\U{202F}\U{205F}\U{3000}"
    || '\U{2000}' <= c <= '\U{200A}'
  }

  /** The white space of Unicode, by code point. */
  lemma IsSpaceExactly(c: char)
    ensures IsSpace(c) <==>
            || 9 <= c as int <= 13 || c as int in {0x20, 0x85, 0xA0, 0x1680}
            || 0x2000 <= c as int <= 0x200A || c as int in {0x2028, 0x2029, 0x202F, 0x205F, 0x3000}
  {
  }

  /** strings.TrimSpace. */
  function TrimSpace(s: string): string {
    if s == [] then s
    else if IsSpace(s[0]) then TrimSpace(s[1..])
    else if IsSpace(s[|s| - 1]) then TrimSpace(s[..|s| - 1])
    else s
  }

  ghost predicate AllSpace(s: string) {
    forall i :: 0 <= i < |s| ==> IsSpace(s[i])
  }

  /** Trimming cuts white space off both ends, and all of it. */
  lemma {:induction false} TrimSpaceExactly(s: string) returns (i: nat, j: nat)
    ensures i <= j <= |s| && TrimSpace(s) == s[i..j]
    ensures AllSpace(s[..i]) && AllSpace(s[j..])
    ensures i < j ==> !IsSpace(s[i]) && !IsSpace(s[j - 1])
    ensures TrimSpace(s) == "" <==> AllSpace(s)
    decreases |s|
  {
    hide IsSpace;
    if s == "" {
      i, j := 0, 0;
    } else if IsSpace(s[0]) {
      var i', j' := TrimSpaceExactly(s[1..]);
      i, j := i' + 1, j' + 1;
      SpaceInFront(s, i', j');
    } else if IsSpace(s[|s| - 1]) {
      i, j := TrimSpaceExactly(s[..|s| - 1]);
      SpaceBehind(s, i, j);
    } else {
      i, j := 0, |s|;
    }
  }

  lemma SpaceInFront(s: string, i: nat, j: nat)
    requires s != "" && IsSpace(s[0]) && i <= j < |s|
    ensures s[i + 1..j + 1] == s[1..][i..j] && s[j + 1..] == s[1..][j..]
    ensures AllSpace(s[1..][..i]) ==> AllSpace(s[..i + 1])
    ensures AllSpace(s[1..]) <==> AllSpace(s)
  {
    hide IsSpace;
    assert s[..i + 1] == [s[0]] + s[1..][..i];
    assert s == [s[0]] + s[1..];
  }

  lemma SpaceBehind(s: string, i: nat, j: nat)
    requires s != "" && IsSpace(s[|s| - 1]) && i <= j < |s|
    ensures s[i..j] == s[..|s| - 1][i..j] && s[..i] == s[..|s| - 1][..i]
    ensures AllSpace(s[..|s| - 1][j..]) ==> AllSpace(s[j..])
    ensures AllSpace(s[..|s| - 1]) <==> AllSpace(s)
  {
    hide IsSpace;
    var init := s[..|s| - 1];
    assert s[j..] == init[j..] + [s[|s| - 1]];
    assert s == init + [s[|s| - 1]];
  }
}
