/** Microcents as dollars (cmd/agt/check_json.go). One dollar is 10^9 microcents. */
module Money {
  import opened Common
  import opened Decimal
  import opened Text
  import Int64

  const PER_DOLLAR := 1_000_000_000

  predicate IsZero(c: char) { c == '0' }

  function Fraction(sub: nat): string {
    var s := TrimRight(Fixed(sub, 9), IsZero);
    if |s| < 2 then s + Zeros(2 - |s|) else s
  }

  /** The least 64-bit integer is left out: negating it gives it back, and the recursion never ends. */
  function FormatMicrocentsUSD(mc: int): string
    requires Int64.Fits(mc) && mc != Int64.MIN
    decreases mc < 0
  {
    if mc < 0 then "-" + FormatMicrocentsUSD(Int64.Wrap(-mc))
    else Digits(mc / PER_DOLLAR) + "." + Fraction(mc % PER_DOLLAR)
  }

  // ---------- reading an amount ----------

  function IndexOf(s: string, c: char): (k: nat)
    ensures k <= |s| && c !in s[..k] && (k < |s| ==> s[k] == c)
  {
    if s == "" || s[0] == c then 0
    else
      var k := IndexOf(s[1..], c);
      assert s[..k + 1] == [s[0]] + s[1..][..k];
      k + 1
  }

  predicate IsDecimal(whole: string, fraction: string) {
    whole != "" && AllDigits(whole) && AllDigits(fraction) && |fraction| <= 9
  }

  function Amount(whole: string, fraction: string): nat
    requires IsDecimal(whole, fraction)
  {
    Value(whole) * PER_DOLLAR + Value(fraction) * Pow10(9 - |fraction|)
  }

  /** A decimal with up to nine places, in microcents. */
  function ReadUnsigned(s: string): Option<nat> {
    var k := IndexOf(s, '.');
    if k == |s| || !IsDecimal(s[..k], s[k + 1..]) then None else Some(Amount(s[..k], s[k + 1..]))
  }

  function Read(s: string): Option<int> {
    if "-" <= s then
      var r := ReadUnsigned(s[1..]);
      match r case None => None case Some(n) => Some(0 - n)
    else ReadUnsigned(s)
  }

  /** How amounts are written: no leading zero, two to nine places, none beyond the second that
      ends the number in zero, no negative zero. */
  predicate IsCanonical(s: string) {
    if "-" <= s then IsPlain(s[1..]) && Read(s) != Some(0) else IsPlain(s)
  }

  predicate IsPlain(s: string) {
    var k := IndexOf(s, '.');
    k < |s| && PlainParts(s[..k], s[k + 1..])
  }

  predicate PlainParts(whole: string, fraction: string) {
    && IsDecimal(whole, fraction)
    && (|whole| > 1 ==> whole[0] != '0')
    && 2 <= |fraction| && (|fraction| > 2 ==> fraction[|fraction| - 1] != '0')
  }

  lemma {:induction false} TrimmedZeros(s: string)
    ensures s == TrimRight(s, IsZero) + Zeros(|s| - |TrimRight(s, IsZero)|)
  {
    if s != [] && IsZero(s[|s| - 1]) {
      TrimmedZeros(s[..|s| - 1]);
      var r := TrimRight(s[..|s| - 1], IsZero);
      assert TrimRight(s, IsZero) == r;
      hide TrimRight;
      var k := |s| - 1 - |r|;
      assert s == s[..|s| - 1] + ['0'] && Zeros(k + 1) == Zeros(k) + ['0'];
      assert r + Zeros(k) + ['0'] == r + (Zeros(k) + ['0']);
    } else {
      assert Zeros(0) == "" && s + "" == s;
    }
  }

  /** The fraction is the nine places less their trailing zeros, but never fewer than two. */
  lemma FractionFills(sub: nat)
    ensures 2 <= |Fraction(sub)| <= 9 && AllDigits(Fraction(sub))
    ensures Fraction(sub) + Zeros(9 - |Fraction(sub)|) == Fixed(sub, 9)
    ensures |Fraction(sub)| > 2 ==> Fraction(sub)[|Fraction(sub)| - 1] != '0'
  {
    var nine := Fixed(sub, 9);
    TrimmedZeros(nine);
    var t := TrimRight(nine, IsZero);
    if |t| < 2 {
      assert Zeros(9 - |t|) == Zeros(2 - |t|) + Zeros(7);
      assert t + Zeros(2 - |t|) + Zeros(7) == t + Zeros(9 - |t|);
    }
  }

  lemma Pow10Nine()
    ensures Pow10(9) == PER_DOLLAR
  {
    assert Pow10(3) == 1000 && Pow10(6) == 1000 * Pow10(3) && Pow10(9) == 1000 * Pow10(6);
  }

  lemma FractionReads(sub: nat)
    requires sub < PER_DOLLAR
    ensures AllDigits(Fraction(sub)) && |Fraction(sub)| <= 9
    ensures Value(Fraction(sub)) * Pow10(9 - |Fraction(sub)|) == sub
  {
    FractionFills(sub);
    ValueWithZeros(Fraction(sub), 9 - |Fraction(sub)|);
    Pow10Nine();
    FixedReadsBack(sub, 9);
  }

  lemma {:induction false} FirstIndex(s: string, c: char, n: nat)
    requires n < |s| && s[n] == c && c !in s[..n]
    ensures IndexOf(s, c) == n
  {
    if n > 0 {
      assert s[0] in s[..n];
      assert s[1..][..n - 1] == s[1..n];
      forall i | 0 <= i < n - 1 ensures s[1..n][i] in s[..n] { assert s[1..n][i] == s[..n][i + 1]; }
      FirstIndex(s[1..], c, n - 1);
    }
  }

  /** The first point of a numeral with a point. */
  lemma PointIsHere(whole: string, fraction: string)
    requires AllDigits(whole)
    ensures var s := whole + "." + fraction;
      IndexOf(s, '.') == |whole| && s[..|whole|] == whole && s[|whole| + 1..] == fraction
  {
    var s := whole + "." + fraction;
    assert s[..|whole|] == whole;
    FirstIndex(s, '.', |whole|);
  }

  lemma UnsignedReadsBack(mc: nat)
    requires Int64.Fits(mc)
    ensures ReadUnsigned(FormatMicrocentsUSD(mc)) == Some(mc) && IsPlain(FormatMicrocentsUSD(mc))
    ensures IsDigit(FormatMicrocentsUSD(mc)[0])
  {
    var whole, sub := mc / PER_DOLLAR, mc % PER_DOLLAR;
    PartsReadBack(mc);
    PointIsHere(Digits(whole), Fraction(sub));
    hide Fraction, Digits, Amount, IndexOf, PlainParts, IsDecimal;
    assert FormatMicrocentsUSD(mc) == Digits(whole) + "." + Fraction(sub);
    assert FormatMicrocentsUSD(mc)[0] == Digits(whole)[0];
  }

  lemma PartsReadBack(mc: nat)
    ensures var whole, fraction := Digits(mc / PER_DOLLAR), Fraction(mc % PER_DOLLAR);
      IsDecimal(whole, fraction) && PlainParts(whole, fraction) && Amount(whole, fraction) == mc
  {
    hide Fraction, Digits, Value, Pow10, Fixed, AllDigits;
    DigitsReadBack(mc / PER_DOLLAR);
    FractionReads(mc % PER_DOLLAR);
    FractionFills(mc % PER_DOLLAR);
    NoLeadingZero(mc / PER_DOLLAR);
  }

  lemma {:induction false} NoLeadingZero(n: nat)
    ensures |Digits(n)| > 1 ==> Digits(n)[0] != '0'
    ensures n > 0 ==> Digits(n)[0] != '0'
  {
    if n >= 10 { NoLeadingZero(n / 10); }
  }

  /** Nothing is lost: what is printed reads back as the same number of microcents, and is in
      canonical form. */
  lemma FormatReadsBack(mc: int)
    requires Int64.Fits(mc) && mc != Int64.MIN
    ensures Read(FormatMicrocentsUSD(mc)) == Some(mc) && IsCanonical(FormatMicrocentsUSD(mc))
  {
    hide Fraction, Digits, ReadUnsigned, IsPlain;
    if mc >= 0 {
      UnsignedReadsBack(mc);
      assert !("-" <= FormatMicrocentsUSD(mc));
    } else {
      UnsignedReadsBack(-mc);
      var s := FormatMicrocentsUSD(-mc);
      assert FormatMicrocentsUSD(mc) == "-" + s && ("-" + s)[1..] == s;
    }
  }

  /** Different amounts print differently. */
  lemma FormatIsInjective(a: int, b: int)
    requires Int64.Fits(a) && Int64.Fits(b) && a != Int64.MIN && b != Int64.MIN
    requires FormatMicrocentsUSD(a) == FormatMicrocentsUSD(b)
    ensures a == b
  {
    FormatReadsBack(a);
    FormatReadsBack(b);
  }

  /** Two plain fractions that fill up to the same nine places are the same. */
  lemma FillingIsInjective(f: string, g: string)
    requires 2 <= |f| <= |g| <= 9 && f + Zeros(9 - |f|) == g + Zeros(9 - |g|)
    requires |g| > 2 ==> g[|g| - 1] != '0'
    ensures f == g
  {
    var nine := f + Zeros(9 - |f|);
    assert f == nine[..|f|] == g[..|f|] && g == nine[..|g|];
  }

  lemma PlainPartsAreUnique(whole: string, fraction: string)
    requires PlainParts(whole, fraction)
    ensures var mc := Amount(whole, fraction);
      whole == Digits(mc / PER_DOLLAR) && fraction == Fraction(mc % PER_DOLLAR)
  {
    hide Fraction, Digits, Value, Pow10, Fixed, AllDigits;
    var sub := Value(fraction) * Pow10(9 - |fraction|);
    ValueWithZeros(fraction, 9 - |fraction|);
    FixedIsUnique(fraction + Zeros(9 - |fraction|));
    Pow10Nine();
    DigitsAreUnique(whole);
    FractionFills(sub);
    Divides(Value(whole), sub);
    if |fraction| <= |Fraction(sub)| {
      FillingIsInjective(fraction, Fraction(sub));
    } else {
      FillingIsInjective(Fraction(sub), fraction);
    }
  }

  lemma Divides(dollars: nat, sub: nat)
    requires sub < PER_DOLLAR
    ensures (dollars * PER_DOLLAR + sub) / PER_DOLLAR == dollars
    ensures (dollars * PER_DOLLAR + sub) % PER_DOLLAR == sub
  {}

  lemma PlainIsFormatted(s: string, mc: nat)
    requires IsPlain(s) && ReadUnsigned(s) == Some(mc) && Int64.Fits(mc)
    ensures s == FormatMicrocentsUSD(mc)
  {
    var k := IndexOf(s, '.');
    PlainPartsAreUnique(s[..k], s[k + 1..]);
    assert s == s[..k] + "." + s[k + 1..];
  }

  /** There is one canonical text for each amount, and it is the one printed. */
  lemma CanonicalIsUnique(s: string, mc: int)
    requires IsCanonical(s) && Read(s) == Some(mc) && Int64.Fits(mc) && mc != Int64.MIN
    ensures s == FormatMicrocentsUSD(mc)
  {
    hide Fraction, Digits, ReadUnsigned, IsPlain;
    if "-" <= s {
      PlainIsFormatted(s[1..], -mc);
      assert s == "-" + s[1..];
    } else {
      PlainIsFormatted(s, mc);
    }
  }

  /** The recursion comes to rest exactly on the amounts it is defined for: the least 64-bit
      integer calls for itself. */
  lemma NegationRestsIff(mc: int)
    requires Int64.Fits(mc) && mc < 0
    ensures Int64.Wrap(-mc) >= 0 <==> mc != Int64.MIN
    ensures Int64.Wrap(-mc) == mc <==> mc == Int64.MIN
  {
  }
}
