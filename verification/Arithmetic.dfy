/** Division rounded up. */
module Arithmetic {

  function CeilDiv(a: nat, b: nat): nat
    requires b > 0
  {
    (a + b - 1) / b
  }

  lemma CeilDivBounds(a: nat, b: nat)
    requires b > 0
    ensures var r := CeilDiv(a, b); a <= r * b && (r > 0 ==> (r - 1) * b < a) && (r == 0 <==> a == 0)
  {
    var r := (a + b - 1) / b;
    assert r * b <= a + b - 1 < r * b + b;
  }

  /** The quotient is fixed by its two bounds. */
  lemma CeilDivUnique(a: nat, b: nat, r: nat)
    requires b > 0
    requires a <= r * b && (r > 0 ==> (r - 1) * b < a)
    ensures CeilDiv(a, b) == r
  {
    var q := CeilDiv(a, b);
    CeilDivBounds(a, b);
    if q < r {
      MulLe(q, r - 1, b);
    } else if r < q {
      MulLe(r, q - 1, b);
    }
  }

  lemma MulLe(x: nat, y: nat, b: nat)
    requires x <= y
    ensures x * b <= y * b
  {
  }
}
