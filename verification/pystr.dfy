/** The two Python string conversions the lookup layer relies on:
    `str.upper()` (used by `find_zip`) and `str(key)` (used by `__getitem__`).

    Only ASCII letters change case here; integers are rendered in decimal
    with a leading `-` when negative, as Python's `str(int)` does.
 */
module PyStr {

  predicate IsLower(c: char) {
    'a' <= c <= 'z'
  }

  predicate IsUpper(c: char) {
    'A' <= c <= 'Z'
  }

  predicate IsDigit(c: char) {
    '0' <= c <= '9'
  }

  /** `c.upper()` for one character. */
  function UpperChar(c: char): (u: char)
    ensures IsLower(c) ==> IsUpper(u) && u as int == c as int - 32
    ensures !IsLower(c) ==> u == c
  {
    if IsLower(c) then (c as int - 32) as char else c
  }

  /** `s.upper()`: every lower-case letter replaced by its capital, all else kept. */
  function Upper(s: string): (u: string)
    ensures |u| == |s|
    ensures forall i :: 0 <= i < |s| ==> u[i] == UpperChar(s[i])
  {
    if s == [] then [] else [UpperChar(s[0])] + Upper(s[1..])
  }

  /** Two characters that differ at most in the case of a letter. An
      independent definition, written without `UpperChar`. */
  predicate SameLetter(c: char, d: char) {
    || c == d
    || (IsLower(c) && d as int == c as int - 32)
    || (IsLower(d) && c as int == d as int - 32)
  }

  predicate EqualIgnoringCase(a: string, b: string) {
    |a| == |b| && forall i :: 0 <= i < |a| ==> SameLetter(a[i], b[i])
  }

  lemma UpperCharSameLetter(c: char, d: char)
    ensures UpperChar(c) == UpperChar(d) <==> SameLetter(c, d)
  {
  }

  /** Upper-casing identifies exactly the strings that differ only in letter
      case: this is what makes `find_zip` case-insensitive. */
  lemma UpperEqualIff(a: string, b: string)
    ensures Upper(a) == Upper(b) <==> EqualIgnoringCase(a, b)
  {
    if Upper(a) == Upper(b) {
      forall i | 0 <= i < |a|
        ensures SameLetter(a[i], b[i])
      {
        assert Upper(a)[i] == Upper(b)[i];
        UpperCharSameLetter(a[i], b[i]);
      }
    }
    if EqualIgnoringCase(a, b) {
      forall i | 0 <= i < |a|
        ensures Upper(a)[i] == Upper(b)[i]
      {
        UpperCharSameLetter(a[i], b[i]);
      }
    }
  }

  /** The result of `upper()` holds no lower-case letter, so upper-casing
      twice is the same as upper-casing once. */
  lemma UpperIdempotent(s: string)
    ensures forall i :: 0 <= i < |Upper(s)| ==> !IsLower(Upper(s)[i])
    ensures Upper(Upper(s)) == Upper(s)
  {
  }

  // ----- str() of an indexing key -----

  /** The keys `__getitem__` is called with in practice: text or integers. */
  datatype Key = KStr(text: string) | KInt(number: int)

  function DigitChar(d: nat): (c: char)
    requires d < 10
    ensures IsDigit(c) && c as int - '0' as int == d
  {
    ('0' as int + d) as char
  }

  /** Decimal rendering of a natural number, without leading zeros. */
  function NatToDecimal(n: nat): (s: string)
    ensures 1 <= |s|
    ensures forall i :: 0 <= i < |s| ==> IsDigit(s[i])
    ensures |s| > 1 ==> s[0] != '0'
    decreases n
  {
    if n < 10 then [DigitChar(n)] else NatToDecimal(n / 10) + [DigitChar(n % 10)]
  }

  /** The value of a string of decimal digits: the reference `NatToDecimal`
      is checked against. */
  function DecimalValue(s: string): nat
    requires forall i :: 0 <= i < |s| ==> IsDigit(s[i])
  {
    if s == [] then 0
    else
      assert IsDigit(s[|s| - 1]);
      DecimalValue(s[..|s| - 1]) * 10 + (s[|s| - 1] as int - '0' as int)
  }

  lemma {:induction false} DecimalRoundTrip(n: nat)
    ensures DecimalValue(NatToDecimal(n)) == n
    decreases n
  {
    if n >= 10 {
      var s := NatToDecimal(n);
      assert s[..|s| - 1] == NatToDecimal(n / 10);
      DecimalRoundTrip(n / 10);
    }
  }

  /** `str(n)` for a Python int: the digits of `|n|`, after a `-` when `n`
      is negative; reading the digits back gives `|n|`. */
  function IntToDecimal(n: int): (s: string)
    ensures 1 <= |s|
    ensures n >= 0 <==> IsDigit(s[0])
    ensures n >= 0 ==> AllDigits(s) && DecimalValue(s) == n
    ensures n < 0 ==> s[0] == '-' && AllDigits(s[1..]) && DecimalValue(s[1..]) == -n
  {
    if n < 0 then
      DecimalRoundTrip(-n);
      assert ("-" + NatToDecimal(-n))[1..] == NatToDecimal(-n);
      "-" + NatToDecimal(-n)
    else
      DecimalRoundTrip(n);
      NatToDecimal(n)
  }

  /** Distinct integers render as distinct strings, so no two integer keys
      look up the same zip code. */
  lemma IntToDecimalInjective(a: int, b: int)
    requires IntToDecimal(a) == IntToDecimal(b)
    ensures a == b
  {
    if a < 0 {
      assert IntToDecimal(b)[1..] == NatToDecimal(-b) == NatToDecimal(-a);
      DecimalRoundTrip(-a);
      DecimalRoundTrip(-b);
    } else {
      DecimalRoundTrip(a);
      DecimalRoundTrip(b);
    }
  }

  function Pow10(k: nat): nat {
    if k == 0 then 1 else 10 * Pow10(k - 1)
  }

  predicate AllDigits(s: string) {
    forall i :: 0 <= i < |s| ==> IsDigit(s[i])
  }

  /** `s.zfill(5)` for a string of digits: padded on the left with `0` up to
      five characters. It ends with `s`, and a digit string keeps its value. */
  function ZeroFill5(s: string): (r: string)
    ensures |r| == if |s| >= 5 then |s| else 5
    ensures r[|r| - |s|..] == s
    ensures AllDigits(s) ==> AllDigits(r) && DecimalValue(r) == DecimalValue(s)
  {
    if |s| >= 5 then s
    else
      var zeros := seq(5 - |s|, i => '0');
      if AllDigits(s) then
        DecimalValueLeadingZeros(zeros, s);
        zeros + s
      else zeros + s
  }

  lemma {:induction false} DecimalValueBound(s: string)
    requires AllDigits(s)
    ensures DecimalValue(s) < Pow10(|s|)
  {
    if s != [] {
      DecimalValueBound(s[..|s| - 1]);
    }
  }

  /** Leading zeros do not change a decimal value. */
  lemma {:induction false} DecimalValueLeadingZeros(z: string, u: string)
    requires forall i :: 0 <= i < |z| ==> z[i] == '0'
    requires AllDigits(u)
    ensures AllDigits(z + u)
    ensures DecimalValue(z + u) == DecimalValue(u)
    decreases |z| + |u|
  {
    if u == [] {
      assert z + u == z;
      if z != [] {
        DecimalValueLeadingZeros(z[..|z| - 1], []);
        assert z[..|z| - 1] + [] == z[..|z| - 1];
      }
    } else {
      assert (z + u)[..|z + u| - 1] == z + u[..|u| - 1];
      DecimalValueLeadingZeros(z, u[..|u| - 1]);
    }
  }

  /** Digit strings of one length with one value are the same string. */
  lemma {:induction false} DecimalValueInjective(a: string, b: string)
    requires AllDigits(a) && AllDigits(b)
    requires |a| == |b|
    requires DecimalValue(a) == DecimalValue(b)
    ensures a == b
  {
    if a != [] {
      var n := |a| - 1;
      assert IsDigit(a[n]) && IsDigit(b[n]);
      DecimalValueInjective(a[..n], b[..n]);
      assert a == a[..n] + [a[n]];
      assert b == b[..n] + [b[n]];
    }
  }

  /** A number below 10^k renders with at most k digits. */
  lemma {:induction false} DecimalLength(n: nat, k: nat)
    requires 1 <= k && n < Pow10(k)
    ensures |NatToDecimal(n)| <= k
  {
    if n >= 10 {
      assert Pow10(1) == 10;
      assert k >= 2;
      assert n / 10 < Pow10(k - 1);
      DecimalLength(n / 10, k - 1);
    }
  }

  /** Numbers below 10000 render with fewer than five characters. */
  lemma SmallNatShort(n: nat)
    requires n < 10000
    ensures |NatToDecimal(n)| < 5
  {
    assert Pow10(4) == 10000;
    DecimalLength(n, 4);
  }

  lemma FiveDigitDecimalShort(n: nat)
    ensures n < 100000 ==> |NatToDecimal(n)| <= 5
  {
    if n < 100000 {
      assert Pow10(5) == 100000;
      DecimalLength(n, 5);
    }
  }

  /** Rendering the value of a five-digit string and zero-filling it gives
      the string back: `str(int(s)).zfill(5) == s`. */
  lemma ZeroFillRoundTrip(s: string)
    requires |s| == 5 && AllDigits(s)
    ensures ZeroFill5(NatToDecimal(DecimalValue(s))) == s
  {
    var v := DecimalValue(s);
    DecimalValueBound(s);
    assert Pow10(5) == 100000;
    FiveDigitDecimalShort(v);
    var d := NatToDecimal(v);
    var t := ZeroFill5(d);
    DecimalRoundTrip(v);
    DecimalValueInjective(t, s);
  }

  /** `str(key)`: a string key unchanged, an integer key in decimal, whose
      digits read back as the key. */
  function Str(k: Key): (s: string)
    ensures k.KStr? ==> s == k.text
    ensures k.KInt? ==> 1 <= |s|
    ensures k.KInt? && k.number >= 0 ==> AllDigits(s) && DecimalValue(s) == k.number
    ensures k.KInt? && k.number < 0 ==> s[0] == '-' && AllDigits(s[1..]) && DecimalValue(s[1..]) == -k.number
  {
    match k
    case KStr(t) => t
    case KInt(n) => IntToDecimal(n)
  }
}
