/**
 * The string primitives the program leans on: `toLowerCase`, `trim`,
 * `startsWith` and `includes`. Case folding is restricted to ASCII; white
 * space is the ECMAScript WhiteSpace and LineTerminator set that `trim` uses.
 */
module Strings {

  /** `toLowerCase` on one character, restricted to the ASCII letters. */
  function LowerChar(c: char): char {
    if 'A' <= c <= 'Z' then (c as int - 'A' as int + 'a' as int) as char else c
  }

  /** Case folding neither creates nor removes white space. */
  lemma LowerCharSpace(c: char)
    ensures IsSpace(LowerChar(c)) == IsSpace(c)
  {
  }

  /** `toLowerCase`, character by character. */
  function Lower(s: string): (r: string)
    ensures |r| == |s|
    ensures forall i :: 0 <= i < |s| ==> r[i] == LowerChar(s[i])
    ensures forall i :: 0 <= i < |r| ==> !('A' <= r[i] <= 'Z')
    ensures forall i :: 0 <= i < |s| && !('A' <= s[i] <= 'Z') ==> r[i] == s[i]
  {
    seq(|s|, i requires 0 <= i < |s| => LowerChar(s[i]))
  }

  /** The characters `String.prototype.trim` removes: WhiteSpace and LineTerminator. */
  predicate IsSpace(c: char) {
    || c == '\t' || c == '\n' || c == '\U{B}' || c == '\U{C}' || c == '\r' || c == ' '
    || c == '\U{A0}' || c == '\U{1680}' || ('\U{2000}' <= c <= '\U{200A}')
    || c == '\U{2028}' || c == '\U{2029}' || c == '\U{202F}' || c == '\U{205F}'
    || c == '\U{3000}' || c == '\U{FEFF}'
  }

  predicate AllSpace(s: string) {
    forall i :: 0 <= i < |s| ==> IsSpace(s[i])
  }

  /** The number of white-space characters at the start of `s`. */
  function LeadingSpaces(s: string): (k: nat)
    ensures k <= |s|
    ensures AllSpace(s[..k])
    ensures k == |s| || !IsSpace(s[k])
  {
    if s != [] && IsSpace(s[0]) then 1 + LeadingSpaces(s[1..]) else 0
  }

  /** The number of white-space characters at the end of `s`. */
  function TrailingSpaces(s: string): (k: nat)
    ensures k <= |s|
    ensures AllSpace(s[|s| - k..])
    ensures k == |s| || !IsSpace(s[|s| - k - 1])
  {
    if s != [] && IsSpace(s[|s| - 1]) then
      var k' := TrailingSpaces(s[..|s| - 1]);
      assert s[..|s| - 1][|s| - 1 - k'..] + [s[|s| - 1]] == s[|s| - 1 - k'..];
      1 + k'
    else 0
  }

  /** `s` is `r` with the white space `s[..i]` in front and white space behind. */
  predicate PaddedAt(s: string, r: string, i: int) {
    OccursAt(s, r, i) && AllSpace(s[..i]) && AllSpace(s[i + |r|..])
  }

  /** `trimStart`: `s` without its leading white space. */
  function TrimStart(s: string): string {
    s[LeadingSpaces(s)..]
  }

  /** `trimEnd`: `s` without its trailing white space. */
  function TrimEnd(s: string): string {
    s[..|s| - TrailingSpaces(s)]
  }

  /** `trim`: `s` with its leading and trailing white space removed. */
  function Trim(s: string): (r: string)
    ensures |r| <= |s|
    ensures r == [] || (!IsSpace(r[0]) && !IsSpace(r[|r| - 1]))
  {
    TrimEnd(TrimStart(s))
  }

  /** `trim` removes white space at the two ends and nothing else. */
  lemma TrimRemovesOnlyPadding(s: string)
    ensures PaddedAt(s, Trim(s), LeadingSpaces(s))
  {
    var i := LeadingSpaces(s);
    var t := TrimStart(s);
    var r := TrimEnd(t);
    var j := |r|;
    assert AllSpace(s[..i]) && t == s[i..];
    assert AllSpace(t[j..]) && r == t[..j];
    SuffixSlices(s, i, j);
    assert r == Trim(s);
    assert PaddedAt(s, Trim(s), i);
  }

  /** Slicing a suffix of `s` is slicing `s` itself, shifted. */
  lemma SuffixSlices(s: string, i: int, j: int)
    requires 0 <= i <= |s| && 0 <= j <= |s| - i
    ensures s[i..][..j] == s[i..i + j] && s[i..][j..] == s[i + j..]
  {
    var t := s[i..];
    forall n | 0 <= n < j
      ensures t[..j][n] == s[i..i + j][n]
    {
      assert t[n] == s[i + n];
    }
    forall n | 0 <= n < |t| - j
      ensures t[j..][n] == s[i + j..][n]
    {
      assert t[j + n] == s[i + j + n];
    }
  }

  predicate StartsWith(s: string, prefix: string) {
    |prefix| <= |s| && s[..|prefix|] == prefix
  }

  /** `s.includes(t)`: `t` occurs at some position of `s`. */
  predicate Contains(s: string, t: string)
    decreases |s|
  {
    StartsWith(s, t) || (s != [] && Contains(s[1..], t))
  }

  /** `t` occurs in `s` starting at position `i`. */
  predicate OccursAt(s: string, t: string, i: int) {
    0 <= i <= |s| - |t| && s[i..i + |t|] == t
  }

  /** `Contains` holds exactly when `t` is a slice of `s` at some position. */
  lemma {:induction false} ContainsIff(s: string, t: string)
    ensures Contains(s, t) <==> exists i :: OccursAt(s, t, i)
  {
    if StartsWith(s, t) {
      assert OccursAt(s, t, 0);
    } else if s == [] {
    } else {
      ContainsIff(s[1..], t);
      if Contains(s[1..], t) {
        var i :| OccursAt(s[1..], t, i);
        assert s[1..][i..i + |t|] == s[i + 1..i + 1 + |t|];
        assert OccursAt(s, t, i + 1);
      }
      if i :| OccursAt(s, t, i) {
        assert i != 0;
        assert s[1..][i - 1..i - 1 + |t|] == s[i..i + |t|];
        assert OccursAt(s[1..], t, i - 1);
      }
    }
  }

  /** Case folding leaves white space alone, so it commutes with `trim`. */
  lemma {:induction false} LowerLeadingSpaces(s: string)
    ensures LeadingSpaces(Lower(s)) == LeadingSpaces(s)
  {
    if s != [] {
      assert IsSpace(Lower(s)[0]) == IsSpace(s[0]);
      assert Lower(s)[1..] == Lower(s[1..]);
      LowerLeadingSpaces(s[1..]);
    }
  }

  lemma {:induction false} LowerTrailingSpaces(s: string)
    ensures TrailingSpaces(Lower(s)) == TrailingSpaces(s)
  {
    if s != [] {
      assert IsSpace(Lower(s)[|s| - 1]) == IsSpace(s[|s| - 1]);
      assert Lower(s)[..|s| - 1] == Lower(s[..|s| - 1]);
      LowerTrailingSpaces(s[..|s| - 1]);
    }
  }

  /** Lowercasing a slice is slicing the lowercased string. */
  lemma LowerSlice(s: string, a: int, b: int)
    requires 0 <= a <= b <= |s|
    ensures Lower(s[a..b]) == Lower(s)[a..b]
  {
    var l, r := Lower(s[a..b]), Lower(s)[a..b];
    forall n | 0 <= n < b - a
      ensures l[n] == r[n]
    {
      assert s[a..b][n] == s[a + n];
    }
  }

  lemma LowerTrimStart(s: string)
    ensures Lower(TrimStart(s)) == TrimStart(Lower(s))
  {
    var i := LeadingSpaces(s);
    LowerLeadingSpaces(s);
    LowerSlice(s, i, |s|);
    assert s[i..|s|] == s[i..] && Lower(s)[i..|s|] == Lower(s)[i..];
  }

  lemma LowerTrimEnd(s: string)
    ensures Lower(TrimEnd(s)) == TrimEnd(Lower(s))
  {
    var j := |s| - TrailingSpaces(s);
    LowerTrailingSpaces(s);
    LowerSlice(s, 0, j);
    assert s[0..j] == s[..j] && Lower(s)[0..j] == Lower(s)[..j];
  }

  /** `s.toLowerCase().trim()` and `s.trim().toLowerCase()` agree. */
  lemma LowerTrimCommute(s: string)
    ensures Lower(Trim(s)) == Trim(Lower(s))
  {
    LowerTrimStart(s);
    LowerTrimEnd(TrimStart(s));
  }

  /** Lowercasing twice is lowercasing once. */
  lemma LowerIdempotent(s: string)
    ensures Lower(Lower(s)) == Lower(s)
  {
  }

  /** White space put in front of a string adds to its count of leading white space. */
  lemma {:induction false} LeadingSpacesPadded(pad: string, s: string)
    requires AllSpace(pad)
    ensures LeadingSpaces(pad + s) == |pad| + LeadingSpaces(s)
  {
    if pad != [] {
      assert (pad + s)[1..] == pad[1..] + s;
      LeadingSpacesPadded(pad[1..], s);
    } else {
      assert pad + s == s;
    }
  }

  /** Leading white space added in front of a string does not survive `trim`. */
  lemma TrimIgnoresPadding(pad: string, s: string)
    requires AllSpace(pad)
    ensures Trim(pad + s) == Trim(s)
  {
    var u := pad + s;
    LeadingSpacesPadded(pad, s);
    var k := LeadingSpaces(s);
    var m := LeadingSpaces(u);
    assert m == |pad| + k;
    var t := u[m..];
    assert t == s[k..] by {
      forall i | 0 <= i < |t|
        ensures t[i] == s[k..][i]
      {
        assert t[i] == u[m + i] == s[k + i];
      }
    }
    assert Trim(u) == t[..|t| - TrailingSpaces(t)];
  }

  /** A trimmed string is its own trim. */
  lemma TrimIdempotent(s: string)
    ensures Trim(Trim(s)) == Trim(s)
  {
    var r := Trim(s);
    assert LeadingSpaces(r) == 0 by {
      if r != [] {
        assert !IsSpace(r[0]);
      }
    }
    var t := r[0..];
    assert t == r;
    assert TrailingSpaces(t) == 0 by {
      if t != [] {
        assert !IsSpace(t[|t| - 1]);
      }
    }
    assert Trim(r) == t[..|t|];
    assert t[..|t|] == r;
  }
}
