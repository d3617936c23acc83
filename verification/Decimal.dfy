/** Decimal notation of natural numbers. */
module Decimal {
  import opened Chars

  predicate AllDigits(s: string) { s != "" && forall i :: 0 <= i < |s| ==> Digit(s[i]) }

  function DigitChar(n: nat): (c: char)
    requires n < 10
    ensures Digit(c)
  {
    ('0' as int + n) as char
  }

  function DigitVal(c: char): (n: nat)
    requires Digit(c)
  {
    c as int - '0' as int
  }

  /** `%d` of a natural number. */
  function Dec(n: nat): (s: string)
    ensures AllDigits(s)
  {
    if n < 10 then [DigitChar(n)] else Dec(n / 10) + [DigitChar(n % 10)]
  }

  /** `int` of a string of digits. */
  function Number(s: string): (n: nat)
    requires forall i :: 0 <= i < |s| ==> Digit(s[i])
  {
    if s == "" then 0 else 10 * Number(s[..|s| - 1]) + DigitVal(s[|s| - 1])
  }

  lemma {:induction false} NumberOfDec(n: nat)
    ensures Number(Dec(n)) == n
  {
    if n < 10 {
      assert [DigitChar(n)][..0] == "";
    } else {
      NumberOfDec(n / 10);
      assert (Dec(n / 10) + [DigitChar(n % 10)])[..|Dec(n / 10)|] == Dec(n / 10);
    }
  }

  function Pow10(n: nat): nat { if n == 0 then 1 else 10 * Pow10(n - 1) }

  /** The places of a number, from the right: units, tens, hundreds. */
  function Places(s: string, k: nat): nat
    requires k <= |s| && forall i :: 0 <= i < |s| ==> Digit(s[i])
  {
    if k == 0 then 0 else Places(s, k - 1) + Worth(s[|s| - k], Pow10(k - 1))
  }

  function Worth(c: char, unit: nat): nat
    requires Digit(c)
  {
    (c as int - 48) * unit
  }

  lemma Tenfold(c: char, unit: nat)
    requires Digit(c)
    ensures Worth(c, 10 * unit) == 10 * Worth(c, unit) && Worth(c, 1) == DigitVal(c)
  {
    var d := c as int - 48;
    assert d * (10 * unit) == 10 * (d * unit);
  }

  /** A string of digits is worth the sum of its places. */
  lemma {:induction false} NumberIsPlaces(s: string)
    requires forall i :: 0 <= i < |s| ==> Digit(s[i])
    ensures Number(s) == Places(s, |s|)
  {
    if s != "" {
      var front := s[..|s| - 1];
      NumberIsPlaces(front);
      PlacesShift(s, |front|);
    }
  }

  lemma {:induction false} PlacesShift(s: string, k: nat)
    requires k < |s| && forall i :: 0 <= i < |s| ==> Digit(s[i])
    ensures var front := s[..|s| - 1]; Places(s, k + 1) == 10 * Places(front, k) + DigitVal(s[|s| - 1])
  {
    hide Worth, DigitVal;
    var front := s[..|s| - 1];
    if k > 0 {
      PlacesShift(s, k - 1);
      Tenfold(s[|s| - 1 - k], Pow10(k - 1));
    } else {
      Tenfold(s[|s| - 1], 1);
    }
  }

  /** `%d` writes no zero in front. */
  lemma {:induction false} NoZeroInFront(n: nat)
    ensures n > 0 ==> Dec(n)[0] != '0'
  {
    if n >= 10 {
      NoZeroInFront(n / 10);
    }
  }

  /** No other digits without a zero in front are worth n. */
  lemma {:induction false} DecUnique(s: string)
    requires AllDigits(s) && (s[0] == '0' ==> |s| == 1)
    ensures Dec(Number(s)) == s
  {
    var n := |s| - 1;
    var front, last := s[..n], DigitVal(s[n]);
    assert s == front + [s[n]] && DigitChar(last) == s[n];
    if n > 0 {
      DecUnique(front);
      assert front[0] == s[0];
      ZeroIsZero(front);
      assert Number(s) == 10 * Number(front) + last;
    } else {
      assert Number(front) == 0;
    }
  }

  lemma ZeroIsZero(s: string)
    requires AllDigits(s) && Dec(Number(s)) == s && s[0] != '0'
    ensures Number(s) > 0
  {
    assert Dec(0)[0] == '0';
  }

  /** Different numbers are written differently. */
  lemma DecInjective(m: nat, n: nat)
    requires Dec(m) == Dec(n)
    ensures m == n
  {
    NumberOfDec(m);
    NumberOfDec(n);
  }
}
