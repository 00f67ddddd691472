/** Unsigned decimal text: strconv.FormatUint and strconv.ParseUint in base 10. */
module Decimal {
  import opened Words
  import opened Wrappers

  predicate IsDigit(c: char) {
    '0' <= c <= '9'
  }

  predicate AllDigits(s: string) {
    forall i :: 0 <= i < |s| ==> IsDigit(s[i])
  }

  function DigitChar(d: nat): (c: char)
    requires d < 10
  {
    "0123456789"[d]
  }

  function DigitValue(c: char): (d: nat)
    requires IsDigit(c)
    ensures d < 10
  {
    c as int - '0' as int
  }

  lemma DigitInverse(d: nat)
    requires d < 10
    ensures IsDigit(DigitChar(d)) && DigitValue(DigitChar(d)) == d
  {
  }

  function Format(n: nat): (s: string)
    ensures |s| > 0
  {
    if n < 10 then [DigitChar(n)] else Format(n / 10) + [DigitChar(n % 10)]
  }

  function Value(s: string): nat
    requires AllDigits(s)
  {
    if s == "" then 0 else 10 * Value(s[..|s| - 1]) + DigitValue(s[|s| - 1])
  }

  /** ParseUint(s, 10, bits): the value, or an error on other characters or when bits binary digits do not suffice. */
  function ParseUint(s: string, bits: nat): Option<nat> {
    if s != "" && AllDigits(s) && Value(s) < Pow(2, bits) then Some(Value(s)) else None
  }

  lemma {:induction false} ValueOfFormat(n: nat)
    ensures AllDigits(Format(n)) && Value(Format(n)) == n
  {
    DigitInverse(n % 10);
    if n < 10 {
      assert Format(n)[..0] == "";
    } else {
      ValueOfFormat(n / 10);
      assert Format(n)[..|Format(n)| - 1] == Format(n / 10);
    }
  }

  /** The text of n has l characters exactly when n has l decimal digits. */
  lemma {:induction false} FormatLength(n: nat)
    ensures n < Pow(10, |Format(n)|)
    ensures |Format(n)| > 1 ==> Pow(10, |Format(n)| - 1) <= n
  {
    if n < 10 {
      assert Pow(10, 1) == 10;
    } else {
      FormatLength(n / 10);
      var k := |Format(n / 10)|;
      assert Pow(10, k + 1) == 10 * Pow(10, k);
      if k > 1 {
        assert Pow(10, k) == 10 * Pow(10, k - 1);
      } else {
        assert Pow(10, 1) == 10;
      }
    }
  }

  lemma {:induction false} PowMonotone(m: nat, n: nat)
    requires m <= n
    ensures Pow(10, m) <= Pow(10, n)
  {
    if m < n {
      PowMonotone(m, n - 1);
    }
  }

  lemma {:induction false} ValueBound(s: string)
    requires AllDigits(s)
    ensures Value(s) < Pow(10, |s|)
  {
    if s != "" {
      ValueBound(s[..|s| - 1]);
    }
  }

  /** The characters of the ten digits, in order. */
  lemma DigitsAre(c: char, d: nat)
    requires d < 10
    ensures DigitChar(d) == "0123456789"[d]
    ensures IsDigit(c) <==> c in "0123456789"
    ensures DigitValue("0123456789"[d]) == d
  {
    assert c in "0123456789" <==> exists i :: 0 <= i < 10 && c == "0123456789"[i];
    if IsDigit(c) {
      assert c == "0123456789"[c as int - '0' as int];
    }
  }

  lemma AllDigitsAre(s: string)
    ensures AllDigits(s) <==> forall i :: 0 <= i < |s| ==> s[i] in "0123456789"
  {
    forall i | 0 <= i < |s|
      ensures IsDigit(s[i]) <==> s[i] in "0123456789"
    {
      DigitsAre(s[i], 0);
    }
  }

  /** The first digit has the highest weight. */
  lemma {:induction false} ValueByFirst(s: string)
    requires s != "" && AllDigits(s)
    ensures Value(s) == DigitValue(s[0]) * Pow(10, |s| - 1) + Value(s[1..])
  {
    var n := |s| - 1;
    if n == 0 {
      assert s[..0] == "" && s[1..] == "";
    } else {
      var shorter := s[..n];
      ValueByFirst(shorter);
      assert shorter[0] == s[0] && shorter[1..] == s[1..][..n - 1];
      MulAssociative(10, DigitValue(s[0]), Pow(10, n - 1));
      MulAssociative(DigitValue(s[0]), 10, Pow(10, n - 1));
    }
  }

  const TEN16 := 10000000000000000
  const TEN18 := 1000000000000000000

  lemma TenPowers()
    ensures Pow(10, 16) == TEN16 && Pow(10, 18) == TEN18
  {
    assert Pow(10, 2) == 100;
    assert Pow(10, 4) == 10000 by { PowAdd(10, 2, 2); }
    PowAdd(10, 4, 4);
    PowAdd(10, 8, 8);
    PowAdd(10, 16, 2);
  }

  lemma SeventeenOrEighteen(n: nat)
    ensures 17 <= |Format(n)| <= 18 <==> TEN16 <= n < TEN18
  {
    TenPowers();
    FormatLength(n);
    var l := |Format(n)|;
    if l < 17 {
      PowMonotone(l, 16);
    } else if l > 18 {
      PowMonotone(18, l - 1);
    } else {
      PowMonotone(16, l - 1);
      PowMonotone(l, 18);
    }
  }
}
