/** Decimal notation. */
module DecimalText {

  predicate IsDigit(c: char) { '0' <= c <= '9' }

  predicate AllDigits(t: string) {
    forall i :: 0 <= i < |t| ==> IsDigit(t[i])
  }

  function DigitOf(c: char): (d: nat)
    requires IsDigit(c)
    ensures d < 10
  {
    (c - '0') as nat
  }

  /** The number written by a string of decimal digits. */
  function Value(t: string): nat {
    if t == "" || !IsDigit(t[|t|-1]) then 0 else 10 * Value(t[..|t|-1]) + DigitOf(t[|t|-1])
  }

  function Print(n: nat): (t: string)
    ensures t != "" && AllDigits(t)
  {
    var last := [('0' as int + n % 10) as char];
    if n < 10 then last else Print(n / 10) + last
  }

  lemma {:induction false} ValueOfPrint(n: nat)
    ensures Value(Print(n)) == n
  {
    var t := Print(n);
    if n >= 10 {
      ValueOfPrint(n / 10);
      assert t[..|t|-1] == Print(n / 10);
    } else {
      assert t[..|t|-1] == "";
    }
    assert DigitOf(t[|t|-1]) == n % 10;
  }

  /** Cutting digits off a printed number changes its value, except that nothing is read from a cut-off 0. */
  lemma {:induction false} CutPrint(n: nat, j: nat)
    requires j < |Print(n)|
    ensures Value(Print(n)[..j]) <= n / 10
  {
    var t := Print(n);
    if n < 10 {
      assert t[..j] == "";
    } else {
      var s := Print(n / 10);
      assert t[..j] == s[..j];
      if j == |s| {
        assert s[..j] == s;
        ValueOfPrint(n / 10);
      } else {
        CutPrint(n / 10, j);
      }
    }
  }

  ghost function Pow10(k: nat): nat {
    if k == 0 then 1 else 10 * Pow10(k - 1)
  }

  lemma {:induction false} PrintLength(n: nat, k: nat)
    requires k > 0 && n < Pow10(k)
    ensures |Print(n)| <= k
  {
    if n >= 10 {
      PrintLength(n / 10, k - 1);
    }
  }

  /** A 32-bit number has at most ten digits. */
  lemma PrintIsShort(n: nat)
    requires n < 0x1_0000_0000
    ensures |Print(n)| <= 10
  {
    assert Pow10(3) == 1000;
    assert Pow10(6) == 1000 * Pow10(3);
    assert Pow10(9) == 1000 * Pow10(6);
    PrintLength(n, 10);
  }
}
