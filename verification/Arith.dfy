/** Division facts that the solver does not find on its own. */
module Arith {

  const TWO_16 := 0x1_0000
  const TWO_32 := 0x1_0000_0000
  const TWO_31 := 0x8000_0000

  function Min(a: nat, b: nat): nat { if a <= b then a else b }

  function Max(a: nat, b: nat): nat { if a <= b then b else a }

  lemma MulMonotone(a: int, b: int, c: int)
    requires a <= b && 0 <= c
    ensures a * c <= b * c
  {
    assert 0 <= (b - a) * c;
  }

  /** A quotient and a remainder in range are the quotient and the remainder. */
  lemma DivModUnique(x: int, b: int, q: int, r: int)
    requires 0 <= r < b && x == q * b + r
    ensures x / b == q && x % b == r
  {
    var q', r' := x / b, x % b;
    assert (q - q') * b == r' - r;
    if q > q' {
      MulMonotone(1, q - q', b);
    } else if q < q' {
      MulMonotone(1, q' - q, b);
    }
  }

  lemma DivUpper(x: int, b: int)
    requires 0 < b
    ensures b * (x / b) <= x < b * (x / b) + b
  {
  }

  /** Counting one further either stays in the row or opens the next one. */
  lemma DivModNext(x: nat, b: nat)
    requires 0 < b
    ensures x % b + 1 < b ==> (x + 1) / b == x / b && (x + 1) % b == x % b + 1
    ensures x % b + 1 == b ==> (x + 1) / b == x / b + 1 && (x + 1) % b == 0
  {
    var q, r := x / b, x % b;
    assert x == q * b + r;
    if r + 1 < b {
      DivModUnique(x + 1, b, q, r + 1);
    } else {
      assert (q + 1) * b == q * b + b;
      DivModUnique(x + 1, b, q + 1, 0);
    }
  }

  /** `x / b < n` exactly when `x < n * b`. */
  lemma DivBelow(x: nat, b: nat, n: nat)
    requires 0 < b
    ensures x / b < n <==> x < n * b
  {
    var q := x / b;
    assert x == q * b + x % b;
    if q < n {
      MulMonotone(q + 1, n, b);
      assert (q + 1) * b == q * b + b;
    } else {
      MulMonotone(n, q, b);
    }
  }
}
