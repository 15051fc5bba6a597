/**
 * String helpers the actions apply to stored text: the last `/` segment of a URL (the
 * upload key of a proof image), the tweet id of a post URL, JavaScript's `String.prototype.trim`,
 * and the decimal rendering of the one-time registration code.
 */
module Text {

  /** `s.split("/").pop()`: the longest suffix of `s` free of `/` (all of `s` when it has none). */
  function LastSegment(s: string): (r: string)
    ensures '/' !in r
    ensures |r| <= |s| && r == s[|s| - |r|..]
    ensures |r| < |s| ==> s[|s| - |r| - 1] == '/'
  {
    if s == [] then []
    else if s[|s| - 1] == '/' then []
    else LastSegment(s[..|s| - 1]) + [s[|s| - 1]]
  }

  /** The last `/` segment of `s` is non-empty exactly when `s` does not end in `/` (and is not empty). */
  predicate HasLastSegment(s: string)
  {
    s != [] && s[|s| - 1] != '/'
  }

  lemma LastSegmentNonEmpty(s: string)
    ensures LastSegment(s) != "" <==> HasLastSegment(s)
  {
  }

  /** `s.split(c)[0]`: the longest prefix of `s` free of `c`. */
  function BeforeFirst(s: string, c: char): (r: string)
    ensures c !in r
    ensures r <= s
    ensures |r| < |s| ==> s[|r|] == c
  {
    if s == [] then []
    else if s[0] == c then []
    else [s[0]] + BeforeFirst(s[1..], c)
  }

  /**
   * `url.split('/').pop()?.split('?')[0] || ""` from the feed: the last path segment cut
   * before its first `?`. `pop` never sees an empty array, so the `|| ""` fallback only
   * replaces an empty string by itself.
   */
  function TweetId(url: string): (r: string)
    ensures '/' !in r && '?' !in r
    ensures r <= LastSegment(url)
    ensures |r| < |LastSegment(url)| ==> LastSegment(url)[|r|] == '?'
    ensures '/' !in url && '?' !in url ==> r == url
  {
    BeforeFirst(LastSegment(url), '?')
  }

  /** The characters JavaScript's `trim` removes: WhiteSpace and LineTerminator of ECMA-262. */
  const JsSpaces: set<char> := {
    ' ', '\t', '\n', '\r', '\U{000B}', '\U{000C}', '\U{00A0}', '\U{FEFF}', '\U{1680}',
    '\U{2000}', '\U{2001}', '\U{2002}', '\U{2003}', '\U{2004}', '\U{2005}', '\U{2006}',
    '\U{2007}', '\U{2008}', '\U{2009}', '\U{200A}',
    '\U{2028}', '\U{2029}', '\U{202F}', '\U{205F}', '\U{3000}'
  }

  predicate IsJsSpace(c: char)
  {
    c in JsSpaces
  }

  /** `s` without its leading white space. */
  function TrimStart(s: string): (r: string)
    ensures |r| <= |s|
  {
    if s == [] || !IsJsSpace(s[0]) then s else TrimStart(s[1..])
  }

  /** What `TrimStart` keeps: a suffix of `s` not starting with white space, after only white space. */
  lemma {:induction false} TrimStartSpec(s: string)
    ensures var r := TrimStart(s);
            && r == s[|s| - |r|..]
            && (forall k :: 0 <= k < |s| - |r| ==> IsJsSpace(s[k]))
            && (r != [] ==> !IsJsSpace(r[0]))
  {
    if s != [] && IsJsSpace(s[0]) {
      TrimStartSpec(s[1..]);
      var r := TrimStart(s);
      assert forall k :: 1 <= k < |s| - |r| ==> s[k] == s[1..][k - 1];
    }
  }

  /** `s` without its trailing white space. */
  function TrimEnd(s: string): (r: string)
    ensures |r| <= |s|
  {
    if s == [] || !IsJsSpace(s[|s| - 1]) then s else TrimEnd(s[..|s| - 1])
  }

  /** What `TrimEnd` keeps: a prefix of `s` not ending in white space, before only white space. */
  lemma {:induction false} TrimEndSpec(s: string)
    ensures var r := TrimEnd(s);
            && r <= s
            && (forall k :: |r| <= k < |s| ==> IsJsSpace(s[k]))
            && (r != [] ==> !IsJsSpace(r[|r| - 1]))
  {
    if s != [] && IsJsSpace(s[|s| - 1]) {
      TrimEndSpec(s[..|s| - 1]);
    }
  }

  /** `s.trim()`: `s` without its leading and trailing white space. */
  function Trim(s: string): (r: string)
    ensures |r| <= |s|
  {
    TrimEnd(TrimStart(s))
  }

  /** What trimming keeps: one contiguous piece of `s`, with only white space cut before and after it. */
  lemma TrimSpec(s: string)
    ensures var r := Trim(s);
            && LeadingSpaces(s) + |r| <= |s|
            && r == s[LeadingSpaces(s)..LeadingSpaces(s) + |r|]
            && forall k :: LeadingSpaces(s) + |r| <= k < |s| ==> IsJsSpace(s[k])
  {
    var t := TrimStart(s);
    var r := TrimEnd(t);
    var n := LeadingSpaces(s);
    TrimStartSpec(s);
    TrimEndSpec(t);
    assert n == |s| - |t|;
    assert t == s[n..];
    assert r == t[..|r|];
    assert r == s[n..n + |r|];
    SpacesAfter(s, n, |r|);
  }

  /** White space after position `m` of the suffix `s[n..]` is white space after `n + m` in `s`. */
  lemma SpacesAfter(s: string, n: nat, m: nat)
    requires n + m <= |s|
    requires forall k :: m <= k < |s| - n ==> IsJsSpace(s[n..][k])
    ensures forall k :: n + m <= k < |s| ==> IsJsSpace(s[k])
  {
    forall k | n + m <= k < |s|
      ensures IsJsSpace(s[k])
    {
      assert s[k] == s[n..][k - n];
    }
  }

  /** How many white-space characters `s` starts with (all of it when it is blank). */
  function LeadingSpaces(s: string): (n: nat)
    ensures n <= |s|
    ensures forall k :: 0 <= k < n ==> IsJsSpace(s[k])
    ensures n < |s| ==> !IsJsSpace(s[n])
  {
    TrimStartSpec(s);
    |s| - |TrimStart(s)|
  }

  /** A trimmed string neither starts nor ends with white space. */
  lemma TrimmedEnds(s: string)
    ensures var r := Trim(s); r != [] ==> !IsJsSpace(r[0]) && !IsJsSpace(r[|r| - 1])
  {
    var t := TrimStart(s);
    var r := TrimEnd(t);
    TrimStartSpec(s);
    TrimEndSpec(t);
    assert r == t[..|r|];
    assert r != [] ==> r[0] == t[0];
  }

  /** Trimming twice is trimming once: re-saving a trimmed name stores the same name. */
  lemma TrimIdempotent(s: string)
    ensures Trim(Trim(s)) == Trim(s)
  {
    var t := Trim(s);
    TrimmedEnds(s);
    assert TrimStart(t) == t;
    assert TrimEnd(t) == t;
  }

  function DigitChar(d: nat): (c: char)
    requires d < 10
    ensures '0' <= c <= '9' && (c as int) - ('0' as int) == d
  {
    ('0' as int + d) as char
  }

  predicate AllDigits(s: string)
  {
    forall i :: 0 <= i < |s| ==> '0' <= s[i] <= '9'
  }

  /** The value of a string of decimal digits, read most significant first. */
  function DigitsValue(s: string): nat
    requires AllDigits(s)
  {
    if s == [] then 0 else DigitsValue(s[..|s| - 1]) * 10 + ((s[|s| - 1] as int) - ('0' as int))
  }

  /** `n.toString()` for a non-negative integer: decimal digits with no leading zero. */
  function DecimalString(n: nat): (r: string)
    ensures |r| >= 1 && AllDigits(r)
    ensures r[0] == '0' ==> n == 0
  {
    if n < 10 then [DigitChar(n)] else DecimalString(n / 10) + [DigitChar(n % 10)]
  }

  /** Reading back the rendering gives the number: distinct numbers render differently. */
  lemma {:induction false} DecimalRoundTrip(n: nat)
    ensures DigitsValue(DecimalString(n)) == n
  {
    if n >= 10 {
      DecimalRoundTrip(n / 10);
      var r := DecimalString(n);
      assert r[..|r| - 1] == DecimalString(n / 10);
    }
  }

  /** A number in [10^(k-1), 10^k) renders with exactly k digits. */
  lemma {:induction false} DecimalLength(n: nat, k: nat)
    requires 1 <= k
    requires Pow10(k - 1) <= n < Pow10(k)
    ensures |DecimalString(n)| == k
  {
    if k == 1 {
      assert n < 10;
    } else {
      assert Pow10(k - 1) == 10 * Pow10(k - 2);
      assert Pow10(k) == 10 * Pow10(k - 1);
      assert Pow10(k - 2) <= n / 10 < Pow10(k - 1);
      DecimalLength(n / 10, k - 1);
    }
  }

  function Pow10(k: nat): (p: nat)
    ensures p >= 1
  {
    if k == 0 then 1 else 10 * Pow10(k - 1)
  }

  /**
   * `Math.floor(100000 + Math.random() * 900000).toString()`, with `seed` standing for
   * `Math.floor(Math.random() * 900000)`: a six-digit code whose value is 100000 + seed.
   */
  function OtpCode(seed: nat): (code: string)
    requires seed < 900000
    ensures |code| == 6 && AllDigits(code)
    ensures DigitsValue(code) == 100000 + seed
    ensures 100000 <= DigitsValue(code) <= 999999
  {
    assert Pow10(5) == 100000 && Pow10(6) == 1000000;
    DecimalLength(100000 + seed, 6);
    DecimalRoundTrip(100000 + seed);
    DecimalString(100000 + seed)
  }
}
