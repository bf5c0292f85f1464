/** Decimal numerals, as `strconv` and `%d` write them. */
module Decimal {

  function DigitChar(d: nat): char
    requires d < 10
  {
    '0' + d as char
  }

  predicate IsDigit(c: char) { '0' <= c <= '9' }

  function DigitValue(c: char): nat
    requires IsDigit(c)
  {
    (c - '0') as int
  }

  predicate AllDigits(s: string) { forall i :: 0 <= i < |s| ==> IsDigit(s[i]) }

  function Digits(n: nat): (s: string)
    ensures s != [] && AllDigits(s)
  {
    if n < 10 then [DigitChar(n)] else Digits(n / 10) + [DigitChar(n % 10)]
  }

  /** The number a string of digits reads as; leading zeros allowed. */
  function Value(s: string): nat
    requires AllDigits(s)
  {
    if s == [] then 0 else Value(s[..|s| - 1]) * 10 + DigitValue(s[|s| - 1])
  }

  lemma ValueSnoc(s: string, c: char)
    requires AllDigits(s) && IsDigit(c)
    ensures AllDigits(s + [c]) && Value(s + [c]) == Value(s) * 10 + DigitValue(c)
  {
    assert (s + [c])[..|s|] == s;
  }

  lemma {:induction false} DigitsReadBack(n: nat)
    ensures Value(Digits(n)) == n
  {
    if n >= 10 {
      DigitsReadBack(n / 10);
      ValueSnoc(Digits(n / 10), DigitChar(n % 10));
    } else {
      assert Digits(n) == [] + [DigitChar(n)];
      ValueSnoc([], DigitChar(n));
    }
  }

  lemma DigitsInjective(m: nat, n: nat)
    requires Digits(m) == Digits(n)
    ensures m == n
  {
    DigitsReadBack(m);
    DigitsReadBack(n);
  }

  function Pow10(k: nat): (r: nat)
    ensures r > 0
  {
    if k == 0 then 1 else 10 * Pow10(k - 1)
  }

  function Zeros(k: nat): (s: string)
    ensures |s| == k && AllDigits(s) && forall i :: 0 <= i < k ==> s[i] == '0'
  {
    seq(k, _ => '0')
  }

  /** `%0*d` of a number that fits the width. */
  function Fixed(n: nat, width: nat): (s: string)
    ensures |s| == width && AllDigits(s)
  {
    if width == 0 then "" else Fixed(n / 10, width - 1) + [DigitChar(n % 10)]
  }

  lemma {:induction false} FixedReadsBack(n: nat, width: nat)
    requires n < Pow10(width)
    ensures Value(Fixed(n, width)) == n
  {
    if width > 0 {
      FixedReadsBack(n / 10, width - 1);
      ValueSnoc(Fixed(n / 10, width - 1), DigitChar(n % 10));
    }
  }

  /** Of a given width there is one numeral for each number. */
  lemma {:induction false} FixedIsUnique(s: string)
    requires AllDigits(s)
    ensures Value(s) < Pow10(|s|) && Fixed(Value(s), |s|) == s
  {
    if s != [] {
      var t, c := s[..|s| - 1], s[|s| - 1];
      FixedIsUnique(t);
      assert s == t + [c];
      LastDigit(Value(t), c);
    }
  }

  lemma {:induction false} ValueWithZeros(s: string, k: nat)
    requires AllDigits(s)
    ensures AllDigits(s + Zeros(k)) && Value(s + Zeros(k)) == Value(s) * Pow10(k)
  {
    if k == 0 {
      assert s + Zeros(0) == s;
    } else {
      ValueWithZeros(s, k - 1);
      assert s + Zeros(k) == (s + Zeros(k - 1)) + ['0'];
      ValueSnoc(s + Zeros(k - 1), '0');
      hide Value;
      TenTimes(Value(s), k - 1);
    }
  }

  lemma TenTimes(n: nat, k: nat)
    ensures n * Pow10(k) * 10 == n * Pow10(k + 1)
  {}

  /** Of all numerals without a leading zero there is one for each number. */
  lemma {:induction false} DigitsAreUnique(s: string)
    requires AllDigits(s) && s != [] && (|s| > 1 ==> s[0] != '0')
    ensures Digits(Value(s)) == s
    ensures |s| > 1 ==> Value(s) > 0
  {
    hide Value;
    var t, c := s[..|s| - 1], s[|s| - 1];
    assert s == t + [c];
    ValueSnoc(t, c);
    LastDigit(Value(t), c);
    if |s| > 1 {
      DigitsAreUnique(t);
      if |t| == 1 { OneDigit(t[0]); }
      assert t == [t[0]] + t[1..];
    } else {
      OneDigit(c);
    }
  }

  lemma OneDigit(c: char)
    requires IsDigit(c)
    ensures Value([c]) == DigitValue(c)
  {
    assert [c] == [] + [c];
    ValueSnoc([], c);
  }

  lemma LastDigit(n: nat, c: char)
    requires IsDigit(c)
    ensures (n * 10 + DigitValue(c)) / 10 == n && (n * 10 + DigitValue(c)) % 10 == DigitValue(c)
  {}
}
