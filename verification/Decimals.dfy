/** Decimal notation of natural numbers. */
module Decimals {

  predicate IsDigit(c: char) {
    '0' <= c <= '9'
  }

  predicate AllDigits(s: string) {
    forall i :: 0 <= i < |s| ==> IsDigit(s[i])
  }

  /** The number a string of digits denotes, leading zeros or not. */
  function Decimal(s: string): nat
    requires AllDigits(s)
  {
    if s == [] then 0
    else
      assert IsDigit(s[|s| - 1]);
      10 * Decimal(s[..|s| - 1]) + (s[|s| - 1] as int - '0' as int)
  }

  function Pow10(n: nat): nat {
    if n == 0 then 1 else 10 * Pow10(n - 1)
  }

  lemma DecimalOfDigit(c: char)
    requires IsDigit(c)
    ensures Decimal([c]) == c as int - '0' as int
  {
    assert [c][..0] == [];
  }

  lemma TimesTen(x: nat, p: nat, y: nat, d: nat)
    ensures 10 * (x * p + y) + d == x * (10 * p) + (10 * y + d)
  {
    assert x * (10 * p) == 10 * (x * p);
  }

  lemma DecimalSnoc(s: string, c: char)
    requires AllDigits(s) && IsDigit(c)
    ensures AllDigits(s + [c]) && Decimal(s + [c]) == 10 * Decimal(s) + (c as int - '0' as int)
  {
    assert (s + [c])[..|s|] == s;
  }

  /** Place values: the digits in front count ten times more for every digit behind them. */
  lemma {:induction false} DecimalAppend(a: string, b: string)
    requires AllDigits(a) && AllDigits(b)
    ensures AllDigits(a + b) && Decimal(a + b) == Decimal(a) * Pow10(|b|) + Decimal(b)
  {
    if b == [] {
      assert a + b == a;
    } else {
      var init, last := b[..|b| - 1], b[|b| - 1];
      assert IsDigit(last) && AllDigits(init) && b == init + [last];
      DecimalAppend(a, init);
      DecimalSnoc(init, last);
      DecimalSnoc(a + init, last);
      assert a + b == a + init + [last];
      assert Pow10(|b|) == 10 * Pow10(|init|);
      hide Decimal, Pow10;
      TimesTen(Decimal(a), Pow10(|init|), Decimal(init), last as int - '0' as int);
    }
  }

  /** `str(n)`. */
  function Format(n: nat): (s: string)
    ensures s != []
  {
    var digit := [('0' as int + n % 10) as char];
    if n < 10 then digit else Format(n / 10) + digit
  }

  lemma {:induction false} FormatRoundTrips(n: nat)
    ensures AllDigits(Format(n)) && Decimal(Format(n)) == n
  {
    var digit := ('0' as int + n % 10) as char;
    assert IsDigit(digit);
    if n < 10 {
      assert Format(n) == [digit] && [digit][..0] == [];
    } else {
      FormatRoundTrips(n / 10);
      var s := Format(n);
      assert s == Format(n / 10) + [digit] && s[..|s| - 1] == Format(n / 10);
    }
  }

  /** Digits as a number is written: none in front of the number's first but for zero itself. */
  predicate IsNumeral(s: string) {
    s != [] && AllDigits(s) && (s[0] != '0' || |s| == 1)
  }

  lemma {:induction false} DecimalIsPositive(s: string)
    requires AllDigits(s) && s != [] && s[0] != '0'
    ensures Decimal(s) > 0
  {
    assert IsDigit(s[0]) && IsDigit(s[|s| - 1]);
    if |s| > 1 { DecimalIsPositive(s[..|s| - 1]); }
  }

  /** A number reads as it is written. */
  lemma {:induction false} FormatOfDecimal(s: string)
    requires IsNumeral(s)
    ensures Format(Decimal(s)) == s
  {
    var init, last := s[..|s| - 1], s[|s| - 1];
    var d := last as int - '0' as int;
    assert IsDigit(last);
    if |s| == 1 {
      assert s == [last];
      DecimalOfDigit(last);
    } else {
      assert AllDigits(init) && init[0] == s[0];
      FormatOfDecimal(init);
      DecimalIsPositive(init);
      var n := Decimal(s);
      assert n == 10 * Decimal(init) + d && n / 10 == Decimal(init) && n % 10 == d;
      assert s == init + [last];
    }
  }
}
