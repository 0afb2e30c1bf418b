/**
 * Integers as text: `String(n)` for an integral number, and `parseInt(s, 10)`,
 * which the cache uses to read its timestamp back.
 */
module Numbers {
  import opened Wrappers
  import Strings

  predicate IsDigit(c: char) {
    '0' <= c <= '9'
  }

  predicate AllDigits(s: string) {
    forall i :: 0 <= i < |s| ==> IsDigit(s[i])
  }

  function DigitChar(d: nat): (c: char)
    requires d < 10
    ensures IsDigit(c)
  {
    ('0' as int + d) as char
  }

  function DigitValue(c: char): (d: nat)
    requires IsDigit(c)
    ensures d < 10
  {
    c as int - '0' as int
  }

  /** The decimal digits of `n`, without leading zeros. */
  function NatToString(n: nat): (s: string)
    ensures s != [] && AllDigits(s)
    ensures s[0] == '0' ==> n == 0
  {
    if n < 10 then [DigitChar(n)] else NatToString(n / 10) + [DigitChar(n % 10)]
  }

  /** `String(n)` for an integral number `n`. */
  function IntToString(n: int): (s: string)
    ensures s != [] && (s[0] == '-' || IsDigit(s[0]))
    ensures n >= 0 ==> AllDigits(s)
    ensures n < 0 ==> s[0] == '-' && AllDigits(s[1..])
  {
    if n < 0 then "-" + NatToString(-n) else NatToString(n)
  }

  /** The value of a run of decimal digits, most significant first. */
  function DigitsValue(s: string): nat
    requires AllDigits(s)
  {
    if s == [] then 0 else DigitsValue(s[..|s| - 1]) * 10 + DigitValue(s[|s| - 1])
  }

  /** The length of the longest run of digits at the start of `s`. */
  function DigitPrefix(s: string): (k: nat)
    ensures k <= |s| && AllDigits(s[..k])
    ensures k == |s| || !IsDigit(s[k])
  {
    if s != [] && IsDigit(s[0]) then 1 + DigitPrefix(s[1..]) else 0
  }

  /**
   * `parseInt(s, 10)`: leading white space is skipped, one optional sign is read,
   * then the longest run of decimal digits; without a digit the result is NaN (None).
   */
  function ParseInt(s: string): (r: Option<int>)
    ensures Strings.AllSpace(s) ==> r.None?
    ensures s != [] && AllDigits(s) ==> r == Some(DigitsValue(s))
  {
    assert s != [] && AllDigits(s) ==> Strings.LeadingSpaces(s) == 0 && DigitPrefix(s) == |s| by {
      if s != [] && AllDigits(s) {
        assert !Strings.IsSpace(s[0]);
        DigitPrefixOfDigits(s);
      }
    }
    assert s[0..] == s && s[..|s|] == s;
    var t := s[Strings.LeadingSpaces(s)..];
    var negative := t != [] && t[0] == '-';
    var u := if t != [] && (t[0] == '-' || t[0] == '+') then t[1..] else t;
    var k := DigitPrefix(u);
    if k == 0 then None
    else
      var v: int := DigitsValue(u[..k]);
      Some(if negative then -v else v)
  }

  lemma {:induction false} DigitsValueOfNatToString(n: nat)
    ensures DigitsValue(NatToString(n)) == n
  {
    var s := NatToString(n);
    if n >= 10 {
      DigitsValueOfNatToString(n / 10);
      assert s[..|s| - 1] == NatToString(n / 10);
    }
  }

  lemma {:induction false} DigitPrefixOfDigits(s: string)
    requires AllDigits(s)
    ensures DigitPrefix(s) == |s|
  {
    if s != [] {
      DigitPrefixOfDigits(s[1..]);
    }
  }

  /** Reading back what `String(n)` wrote gives `n`. */
  lemma ParseIntOfIntToString(n: int)
    ensures ParseInt(IntToString(n)) == Some(n)
  {
    var s := IntToString(n);
    assert !Strings.IsSpace(s[0]);
    assert s[0..] == s;
    var m := if n < 0 then -n else n;
    var d := NatToString(m);
    assert n < 0 ==> s[1..] == d;
    DigitPrefixOfDigits(d);
    assert d[..|d|] == d;
    DigitsValueOfNatToString(m);
  }

  /** Distinct integers have distinct decimal strings. */
  lemma IntToStringInjective(a: int, b: int)
    ensures IntToString(a) == IntToString(b) <==> a == b
  {
    ParseIntOfIntToString(a);
    ParseIntOfIntToString(b);
  }
}
