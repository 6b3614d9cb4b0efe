/** Integer division facts used by the MIG threshold arithmetic. */
module Arith {

  /** `(a + b - 1) / b`, the ceiling the source writes out inline. */
  function CeilDiv(a: nat, b: nat): nat
    requires b > 0
  {
    (a + b - 1) / b
  }

  lemma QuotientBounds(a: nat, b: nat)
    requires b > 0
    ensures (a / b) * b <= a < (a / b + 1) * b
  {
    assert a == (a / b) * b + a % b;
  }

  lemma MulMonotone(x: nat, y: nat, z: nat)
    requires x <= y
    ensures x * z <= y * z
  {
    assert y * z == x * z + (y - x) * z;
  }

  /** The quotient is the largest multiple count that stays below `a`. */
  lemma QuotientIsGreatest(a: nat, b: nat, j: nat)
    requires b > 0
    ensures j <= a / b <==> j * b <= a
  {
    QuotientBounds(a, b);
    if j <= a / b {
      MulMonotone(j, a / b, b);
    } else {
      MulMonotone(a / b + 1, j, b);
    }
  }

  /** The ceiling is the least count that reaches `a`. */
  lemma CeilingIsLeast(a: nat, b: nat, j: nat)
    requires b > 0
    ensures CeilDiv(a, b) <= j <==> a <= j * b
  {
    var n := a + b - 1;
    QuotientIsGreatest(n, b, j + 1);
    assert (j + 1) * b == j * b + b;
  }

  lemma QuotientMonotone(a: nat, c: nat, b: nat)
    requires b > 0 && a <= c
    ensures a / b <= c / b
  {
    var q := a / b;
    QuotientIsGreatest(a, b, q);
    QuotientIsGreatest(c, b, q);
  }
}
