/**
 * `sanitizeURLForAttr`: a URL headed for an HTML attribute is refused when,
 * lowercased and trimmed, it starts with a script-carrying scheme; otherwise
 * it is URI-encoded and its quotes are percent-escaped. `encodeURI` is a
 * browser built-in and enters as a parameter.
 */
module Sanitize {
  import opened Strings

  /** `u` starts with one of the three refused schemes. */
  predicate HasScriptScheme(u: string) {
    StartsWith(u, "javascript:") || StartsWith(u, "data:") || StartsWith(u, "vbscript:")
  }

  /**
   * The scheme test, on `url.toLowerCase().trim()`. Lowercasing and trimming
   * commute, so this is the same test on the URL normalised the way the
   * search term is (trimmed, then lowercased).
   */
  function IsBlocked(url: string): (b: bool)
    ensures b <==> HasScriptScheme(Lower(Trim(url)))
  {
    LowerTrimCommute(url);
    HasScriptScheme(Trim(Lower(url)))
  }

  /** `s.replace(/c/g, rep)`. */
  function ReplaceAll(s: string, c: char, rep: string): (r: string)
    ensures c !in rep ==> c !in r
    ensures forall d :: d in r ==> d in s || d in rep
    ensures c !in s ==> r == s
  {
    if s == [] then []
    else (if s[0] == c then rep else [s[0]]) + ReplaceAll(s[1..], c, rep)
  }

  /** `.replace(/'/g, '%27').replace(/"/g, '%22')`: no quote survives. */
  function EscapeQuotes(s: string): (r: string)
    ensures '\'' !in r && '"' !in r
    ensures '\'' !in s && '"' !in s ==> r == s
  {
    var t := ReplaceAll(s, '\'', "%27");
    assert '\'' !in "%22";
    ReplaceAll(t, '"', "%22")
  }

  /** The replacement works character by character: it distributes over concatenation. */
  lemma {:induction false} ReplaceAllAppend(a: string, b: string, c: char, rep: string)
    ensures ReplaceAll(a + b, c, rep) == ReplaceAll(a, c, rep) + ReplaceAll(b, c, rep)
  {
    if a == [] {
      assert a + b == b;
    } else {
      assert (a + b)[1..] == a[1..] + b;
      ReplaceAllAppend(a[1..], b, c, rep);
    }
  }

  /** A single character becomes `rep` when it is `c` and stays as it is otherwise. */
  lemma ReplaceAllChar(d: char, c: char, rep: string)
    ensures ReplaceAll([d], c, rep) == if d == c then rep else [d]
  {
    assert [d][1..] == [];
  }

  /**
   * The escaping distributes over concatenation, turns `'` into `%27` and `"`
   * into `%22`, and keeps every other character: together this fixes the
   * result for every string.
   */
  lemma EscapeQuotesSpec(a: string, b: string, d: char)
    ensures EscapeQuotes(a + b) == EscapeQuotes(a) + EscapeQuotes(b)
    ensures EscapeQuotes([d]) == if d == '\'' then "%27" else if d == '"' then "%22" else [d]
  {
    ReplaceAllAppend(a, b, '\'', "%27");
    ReplaceAllAppend(ReplaceAll(a, '\'', "%27"), ReplaceAll(b, '\'', "%27"), '"', "%22");
    ReplaceAllChar(d, '\'', "%27");
    if d == '\'' {
      assert '"' !in "%27";
    } else {
      ReplaceAllChar(d, '"', "%22");
    }
  }

  function SanitizeUrlForAttr(url: string, encodeUri: string -> string): (r: string)
    ensures url == "" || IsBlocked(url) ==> r == ""
    ensures '\'' !in r && '"' !in r
    ensures url != "" && !IsBlocked(url) ==> r == EscapeQuotes(encodeUri(url))
  {
    if url == "" then ""
    else if IsBlocked(url) then ""
    else EscapeQuotes(encodeUri(url))
  }

  /**
   * The scheme test cannot be dodged by upper-case letters or by white space
   * in front of the URL.
   */
  lemma BlockedIgnoresCaseAndPadding(pad: string, url: string)
    requires AllSpace(pad)
    ensures IsBlocked(pad + url) == IsBlocked(url)
    ensures IsBlocked(Lower(url)) == IsBlocked(url)
  {
    assert Lower(pad + url) == Lower(pad) + Lower(url);
    assert AllSpace(Lower(pad)) by {
      forall i | 0 <= i < |pad|
        ensures IsSpace(Lower(pad)[i])
      {
        assert Lower(pad)[i] == LowerChar(pad[i]);
      }
    }
    TrimIgnoresPadding(Lower(pad), Lower(url));
    LowerIdempotent(url);
  }
}
