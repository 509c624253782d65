/** String primitives of JavaScript that the two handlers rely on:
    `String.prototype.trim`, `startsWith`, `includes`, and the first-occurrence
    search that `indexOf` and the lazy regular-expression quantifier perform. */
module Text {
  import opened Options

  /** The code points ECMAScript counts as WhiteSpace or LineTerminator: what
      `trim` removes and what the regular-expression class `\s` matches (the
      space separators are Unicode category Zs). */
  predicate IsSpace(c: char) {
    || c == '\t' || c == '\n' || c == '\U{000B}' || c == '\U{000C}' || c == '\r'
    || c == ' ' || c == '\U{00A0}' || c == '\U{1680}'
    || ('\U{2000}' <= c <= '\U{200A}')
    || c == '\U{2028}' || c == '\U{2029}' || c == '\U{202F}' || c == '\U{205F}'
    || c == '\U{3000}' || c == '\U{FEFF}'
  }

  /** Every character of `s` at positions lo .. hi-1 is whitespace. */
  predicate SpaceBetween(s: string, lo: int, hi: int)
    requires 0 <= lo && hi <= |s|
  {
    forall m :: lo <= m < hi ==> IsSpace(s[m])
  }

  /** Neither end of `s` is whitespace. */
  predicate IsTrimmed(s: string) {
    |s| > 0 ==> !IsSpace(s[0]) && !IsSpace(s[|s| - 1])
  }

  /** `r` sits in `s` at position `a` with only whitespace before and after it. */
  ghost predicate PaddedAt(r: string, s: string, a: int) {
    0 <= a && a + |r| <= |s| && s[a..a + |r|] == r
    && SpaceBetween(s, 0, a) && SpaceBetween(s, a + |r|, |s|)
  }

  /** Reference definition of trimming: `r` is `s` with a whitespace-only
      prefix and a whitespace-only suffix removed, and `r` itself has no
      whitespace at either end. */
  ghost predicate IsTrimOf(r: string, s: string) {
    IsTrimmed(r) && exists a :: PaddedAt(r, s, a)
  }

  /** Index of the first non-whitespace character (|s| if there is none). */
  function LeadingSpace(s: string): (a: nat)
    ensures a <= |s|
    ensures SpaceBetween(s, 0, a)
    ensures a < |s| ==> !IsSpace(s[a])
  {
    if |s| == 0 || !IsSpace(s[0]) then 0
    else
      var a := 1 + LeadingSpace(s[1..]);
      assert forall m :: 1 <= m < a ==> s[m] == s[1..][m - 1];
      a
  }

  /** One past the last non-whitespace character (0 if there is none). */
  function TrailingSpace(s: string): (b: nat)
    ensures b <= |s|
    ensures SpaceBetween(s, b, |s|)
    ensures b > 0 ==> !IsSpace(s[b - 1])
  {
    if |s| == 0 || !IsSpace(s[|s| - 1]) then |s|
    else
      var b := TrailingSpace(s[..|s| - 1]);
      assert forall m :: b <= m < |s| - 1 ==> s[m] == s[..|s| - 1][m];
      b
  }

  /** `String.prototype.trim`. */
  function Trim(s: string): (r: string)
    ensures |r| <= |s|
    ensures IsTrimOf(r, s)
  {
    var a := LeadingSpace(s);
    var b := a + TrailingSpace(s[a..]);
    TrailingOfSuffix(s, a);
    assert PaddedAt(s[a..b], s, a);
    s[a..b]
  }

  /* The trailing whitespace of a suffix of `s` is the trailing whitespace of `s`. */
  lemma TrailingOfSuffix(s: string, a: nat)
    requires a <= |s|
    ensures SpaceBetween(s, a + TrailingSpace(s[a..]), |s|)
    ensures a + TrailingSpace(s[a..]) > a ==> !IsSpace(s[a + TrailingSpace(s[a..]) - 1])
  {
    var t := s[a..];
    var b := a + TrailingSpace(t);
    assert forall m :: b <= m < |s| ==> s[m] == t[m - a];
    assert b > a ==> s[b - 1] == t[b - 1 - a];
  }

  /** The reference definition determines the trimmed text uniquely. */
  lemma TrimUnique(r: string, s: string)
    requires IsTrimOf(r, s)
    ensures r == Trim(s)
  {
    var r' := Trim(s);
    var a :| PaddedAt(r, s, a);
    var a' :| PaddedAt(r', s, a');
    if |r| > 0 {
      assert s[a] == r[0];
      assert |r'| > 0;
      assert s[a'] == r'[0];
      assert a == a';
      assert s[a + |r| - 1] == r[|r| - 1] && s[a' + |r'| - 1] == r'[|r'| - 1];
      assert |r| == |r'|;
    }
  }

  /** Trimming twice is trimming once. */
  lemma TrimIdempotent(s: string)
    ensures Trim(Trim(s)) == Trim(s)
  {
    var r := Trim(s);
    assert PaddedAt(r, r, 0);
    TrimUnique(r, r);
  }

  /** `p` occurs in `s` at position `k`. */
  predicate OccursAt(s: string, p: string, k: int) {
    0 <= k && k + |p| <= |s| && s[k..k + |p|] == p
  }

  /** `String.prototype.startsWith`. */
  predicate StartsWith(s: string, p: string) {
    |p| <= |s| && s[..|p|] == p
  }

  /** `String.prototype.endsWith`. */
  predicate EndsWith(s: string, p: string) {
    |p| <= |s| && s[|s| - |p|..] == p
  }

  /** A prefix stays a prefix when text is appended. */
  lemma StartsWithAppend(s: string, p: string, t: string)
    requires StartsWith(s, p)
    ensures StartsWith(s + t, p)
  {
    assert (s + t)[..|p|] == s[..|p|];
  }

  /** Appending the same text to a string and to its suffix keeps the suffix. */
  lemma EndsWithAppend(s: string, p: string, t: string)
    requires EndsWith(s, p)
    ensures EndsWith(s + t, p + t)
  {
    assert (s + t)[|s + t| - |p + t|..] == s[|s| - |p|..] + t;
  }

  /** `Array.prototype.join(sep)` over strings. */
  function Join(parts: seq<string>, sep: string): string {
    if |parts| == 0 then ""
    else if |parts| == 1 then parts[0]
    else Join(parts[..|parts| - 1], sep) + sep + parts[|parts| - 1]
  }

  /** Joining one more part appends the separator and the part. */
  lemma JoinStep(parts: seq<string>, last: string, sep: string)
    requires |parts| > 0
    ensures Join(parts + [last], sep) == Join(parts, sep) + sep + last
  {
    assert (parts + [last])[..|parts|] == parts;
  }

  /** Position of the first occurrence of `p` in `s` at or after `from`. */
  function IndexOf(s: string, p: string, from: nat): (r: Option<nat>)
    ensures r.Some? ==> from <= r.value && OccursAt(s, p, r.value)
    ensures r.Some? ==> forall k :: from <= k < r.value ==> !OccursAt(s, p, k)
    ensures r.None? ==> forall k :: from <= k ==> !OccursAt(s, p, k)
    decreases |s| - from
  {
    if from + |p| > |s| then None
    else if s[from..from + |p|] == p then Some(from)
    else IndexOf(s, p, from + 1)
  }

  /** `String.prototype.includes`. */
  predicate Contains(s: string, p: string)
    ensures Contains(s, p) <==> exists k :: OccursAt(s, p, k)
  {
    IndexOf(s, p, 0).Some?
  }

  /** An occurrence inside a slice is an occurrence in the whole string. */
  lemma OccursInSlice(s: string, p: string, a: nat, b: nat, k: int)
    requires a <= b <= |s|
    requires OccursAt(s[a..b], p, k)
    ensures OccursAt(s, p, a + k)
  {
    forall i | 0 <= i < |p|
      ensures s[a + k + i] == p[i]
    {
      assert s[a..b][k..k + |p|][i] == p[i];
    }
  }

  /** An occurrence in the whole string that lies within a slice is one in the slice. */
  lemma OccursOfSlice(s: string, p: string, a: nat, b: nat, k: int)
    requires a <= k && k + |p| <= b <= |s|
    requires OccursAt(s, p, k)
    ensures OccursAt(s[a..b], p, k - a)
  {
    forall i | 0 <= i < |p|
      ensures s[a..b][k - a + i] == p[i]
    {
      assert s[k..k + |p|][i] == p[i];
    }
  }

  /** A trimmed text keeps a leading word of `s` whose ends are not whitespace. */
  lemma TrimKeepsPrefix(s: string, p: string)
    requires StartsWith(s, p) && |p| > 0
    requires !IsSpace(p[0]) && !IsSpace(p[|p| - 1])
    ensures StartsWith(Trim(s), p)
  {
    var r := Trim(s);
    var a :| PaddedAt(r, s, a);
    assert s[0] == p[0];
    assert s[|p| - 1] == p[|p| - 1];
    assert a == 0 && |p| <= |r|;
    assert r[..|p|] == s[..|p|];
  }
}
