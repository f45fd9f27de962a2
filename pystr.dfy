/** The Python `str` built-ins the chunker relies on: `isspace`, the
    argument-less `strip` and `rstrip`, and `find`. Strings are sequences of
    code points, as in Python 3. */
module PyStr {

  /** The code points Python's `str.isspace` accepts, which are exactly the
      ones the argument-less `strip` and `rstrip` remove. */
  predicate IsSpace(c: char) {
    ('\t' <= c <= '\r')
    || ('\U{1C}' <= c <= '\U{1F}')
    || c == ' '
    || c == '\U{85}'
    || c == '\U{A0}'
    || c == '\U{1680}'
    || ('\U{2000}' <= c <= '\U{200A}')
    || c == '\U{2028}'
    || c == '\U{2029}'
    || c == '\U{202F}'
    || c == '\U{205F}'
    || c == '\U{3000}'
  }

  /** The whitespace table of Python 3's `str.isspace`, code point by code
      point: the characters whose Unicode bidirectional class is WS, B or S,
      or whose category is Zs. */
  const SpaceTable: set<char> := {
    '\t', '\n', '\U{0B}', '\U{0C}', '\r', '\U{1C}', '\U{1D}', '\U{1E}', '\U{1F}', ' ',
    '\U{85}', '\U{A0}', '\U{1680}',
    '\U{2000}', '\U{2001}', '\U{2002}', '\U{2003}', '\U{2004}', '\U{2005}',
    '\U{2006}', '\U{2007}', '\U{2008}', '\U{2009}', '\U{200A}',
    '\U{2028}', '\U{2029}', '\U{202F}', '\U{205F}', '\U{3000}'
  }

  /** `IsSpace`, written with ranges, accepts exactly the code points of the
      table. */
  lemma IsSpaceTable(c: char)
    ensures IsSpace(c) <==> c in SpaceTable
  {
  }

  /** Every character of `s[lo..hi]` is whitespace. */
  predicate SpacesIn(s: string, lo: int, hi: int)
    requires 0 <= lo <= hi <= |s|
  {
    forall i {:trigger IsSpace(s[i])} :: lo <= i < hi ==> IsSpace(s[i])
  }

  /** Every character of `s` is whitespace. */
  predicate AllSpace(s: string) {
    SpacesIn(s, 0, |s|)
  }

  /** The end of `s[..k]` once its trailing whitespace is cut off. */
  function TrailingEnd(s: string, k: nat): (n: nat)
    requires k <= |s|
    ensures n <= k && (n == 0 || !IsSpace(s[n - 1])) && SpacesIn(s, n, k)
    decreases k
  {
    if k == 0 || !IsSpace(s[k - 1]) then k else TrailingEnd(s, k - 1)
  }

  /** The first index in `[k, hi)` that is not whitespace, or `hi`. */
  function LeadingStart(s: string, k: nat, hi: nat): (n: nat)
    requires k <= hi <= |s|
    ensures k <= n <= hi && (n == hi || !IsSpace(s[n])) && SpacesIn(s, k, n)
    decreases hi - k
  {
    if k == hi || !IsSpace(s[k]) then k else LeadingStart(s, k + 1, hi)
  }

  /** `s.rstrip()`: the longest prefix of `s` that does not end in whitespace. */
  function RStrip(s: string): (r: string)
    ensures |r| <= |s| && r == s[..|r|]
    ensures r == [] || !IsSpace(r[|r| - 1])
    ensures SpacesIn(s, |r|, |s|)
  {
    s[..TrailingEnd(s, |s|)]
  }

  /** `s.strip()`: `s` without its leading and trailing whitespace. It is
      empty exactly when `s` is all whitespace, which is what the source's
      `not s.strip()` tests. */
  function Strip(s: string): (r: string)
    ensures r == [] <==> AllSpace(s)
    ensures r == [] || (!IsSpace(r[0]) && !IsSpace(r[|r| - 1]))
    ensures |r| <= |s|
    ensures exists b :: StrippedAt(s, r, b)
  {
    var e := TrailingEnd(s, |s|);
    var b := LeadingStart(s, 0, e);
    SpacesJoin(s, 0, b, |s|);
    assert StrippedAt(s, s[b..e], b);
    s[b..e]
  }

  /** `r` is `s` with the whitespace `s[..b]` cut from the front and the
      whitespace after `r` cut from the back. */
  predicate StrippedAt(s: string, r: string, b: int) {
    0 <= b && b + |r| <= |s| && r == s[b..b + |r|]
    && SpacesIn(s, 0, b) && SpacesIn(s, b + |r|, |s|)
  }

  /** `Strip`'s contract determines its result: any string that is `s` with
      whitespace cut from both ends, and that neither starts nor ends with
      whitespace, is `Strip(s)`. */
  lemma StripUnique(s: string, r: string, b: int)
    requires StrippedAt(s, r, b)
    requires r == [] <==> AllSpace(s)
    requires r == [] || (!IsSpace(r[0]) && !IsSpace(r[|r| - 1]))
    ensures r == Strip(s)
  {
    var t := Strip(s);
    if r != [] {
      var c :| StrippedAt(s, t, c);
      assert s[b] == r[0] && s[c] == t[0];
      assert !IsSpace(s[b]) && !IsSpace(s[c]);
      assert b == c;
      assert s[b + |r| - 1] == r[|r| - 1] && s[c + |t| - 1] == t[|t| - 1];
      assert !IsSpace(s[b + |r| - 1]) && !IsSpace(s[c + |t| - 1]);
      assert |r| == |t|;
    }
  }

  lemma SpacesJoin(s: string, lo: int, mid: int, hi: int)
    requires 0 <= lo <= mid <= hi <= |s|
    ensures SpacesIn(s, lo, mid) && SpacesIn(s, mid, hi) ==> SpacesIn(s, lo, hi)
  {
  }

  /** `pat` occurs in `s` at index `q`. */
  predicate OccursAt(s: string, pat: string, q: int) {
    0 <= q && q + |pat| <= |s| && s[q..q + |pat|] == pat
  }

  ghost predicate Occurs(s: string, pat: string) {
    exists q :: OccursAt(s, pat, q)
  }

  /** `s.find(pat)`: the index of the first occurrence of `pat` in `s`, or -1. */
  function Find(s: string, pat: string): (r: int)
    ensures r == -1 || OccursAt(s, pat, r)
    ensures forall q :: 0 <= q && (r == -1 || q < r) ==> !OccursAt(s, pat, q)
    ensures r == -1 <==> !Occurs(s, pat)
  {
    FindFrom(s, pat, 0)
  }

  /** The first occurrence of `pat` in `s` at index `i` or later, or -1. */
  function FindFrom(s: string, pat: string, i: nat): (r: int)
    requires i <= |s|
    ensures r == -1 || (i <= r && OccursAt(s, pat, r))
    ensures forall q :: i <= q && (r == -1 || q < r) ==> !OccursAt(s, pat, q)
    decreases |s| - i
  {
    if i + |pat| > |s| then -1
    else if s[i..i + |pat|] == pat then i
    else FindFrom(s, pat, i + 1)
  }

  /** When `pat` starts with a character that `pre` does not contain, the
      first occurrence of `pat` in `pre + pat + post` is right after `pre`. */
  lemma FindAfter(pre: string, pat: string, post: string)
    requires pat != [] && pat[0] !in pre
    ensures Find(pre + pat + post, pat) == |pre|
  {
    var s := pre + pat + post;
    assert s[|pre|..|pre| + |pat|] == pat;
    assert OccursAt(s, pat, |pre|);
  }
}
