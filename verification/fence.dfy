/** The extraction of rewritten code from a completion: the first match of the
    regular expression  ```(?:\w+)?\n([\s\S]*?)\n```  written out as a matcher,
    its capture trimmed, and the trimmed whole text when nothing matches
    (app/api/analyze/route.ts lines 59-60). */
module Fence {
  import opened Options
  import opened Text

  const Opening: string := "```"
  /** What ends the lazy capture: a line break followed by three backticks. */
  const Closing: string := "\n```"

  /** The regular-expression class `\w`. */
  predicate IsWordChar(c: char) {
    ('A' <= c <= 'Z') || ('a' <= c <= 'z') || ('0' <= c <= '9') || c == '_'
  }

  /** Reference semantics of one match: the opening backticks at `i`, a run of
      word characters s[i+3 .. j-1] (the optional language tag), a line break at
      j-1, the capture s[j..k], and the closing "\n```" at k, the first one at
      or after j because the capture is lazy. */
  ghost predicate IsMatch(s: string, i: int, j: int, k: int) {
    && 0 <= i && i + 3 < j <= k && k + |Closing| <= |s|
    && OccursAt(s, Opening, i)
    && (forall m :: i + 3 <= m < j - 1 ==> IsWordChar(s[m]))
    && s[j - 1] == '\n'
    && OccursAt(s, Closing, k)
    && (forall m :: j <= m < k ==> !OccursAt(s, Closing, m))
  }

  /** The match JavaScript's `String.prototype.match` reports: the one that
      starts leftmost. */
  ghost predicate Leftmost(s: string, i: int, j: int, k: int) {
    IsMatch(s, i, j, k) && forall i', j', k' :: i' < i ==> !IsMatch(s, i', j', k')
  }

  ghost predicate NoMatch(s: string) {
    forall i, j, k :: !IsMatch(s, i, j, k)
  }

  /** Where a match starts and where its capture lies. */
  datatype Span = Span(start: nat, lo: nat, hi: nat)

  /** End of the maximal run of word characters from `from` on. */
  function WordRunEnd(s: string, from: nat): (e: nat)
    requires from <= |s|
    ensures from <= e <= |s|
    ensures forall m :: from <= m < e ==> IsWordChar(s[m])
    ensures e < |s| ==> !IsWordChar(s[e])
    decreases |s| - from
  {
    if from == |s| || !IsWordChar(s[from]) then from else WordRunEnd(s, from + 1)
  }

  /** The match starting at `i`, if any. The tag can only be the maximal word
      run: a shorter run, or none, is followed by a word character rather than
      the required line break. */
  function MatchAt(s: string, i: nat): (r: Option<Span>)
    ensures r.Some? ==> r.value.start == i && IsMatch(s, i, r.value.lo, r.value.hi)
    ensures r.None? ==> forall j, k :: !IsMatch(s, i, j, k)
  {
    if i + 3 > |s| || s[i..i + 3] != Opening then None
    else
      var e := WordRunEnd(s, i + 3);
      if e == |s| || s[e] != '\n' then
        assert forall j, k :: IsMatch(s, i, j, k) ==> j - 1 == e;
        None
      else
        match IndexOf(s, Closing, e + 1)
        case None =>
          assert forall j, k :: IsMatch(s, i, j, k) ==> j - 1 == e;
          None
        case Some(k) => Some(Span(i, e + 1, k))
  }

  /** The leftmost match starting at or after `from`. */
  function FirstMatch(s: string, from: nat): (r: Option<Span>)
    ensures r.Some? ==> from <= r.value.start && IsMatch(s, r.value.start, r.value.lo, r.value.hi)
    ensures r.Some? ==> forall i, j, k :: from <= i < r.value.start ==> !IsMatch(s, i, j, k)
    ensures r.None? ==> forall i, j, k :: from <= i ==> !IsMatch(s, i, j, k)
    decreases |s| - from
  {
    if from >= |s| then None
    else
      match MatchAt(s, from)
      case Some(m) => Some(m)
      case None => FirstMatch(s, from + 1)
  }

  /** The code sent back to the client: the trimmed capture of the leftmost
      match, else the trimmed completion. It never fails and never leaves
      whitespace at either end. */
  function ExtractCode(text: string): (r: string)
    ensures IsTrimmed(r)
  {
    match FirstMatch(text, 0)
    case Some(m) => Trim(text[m.lo..m.hi])
    case None => Trim(text)
  }

  /** The extraction agrees with the regular expression's semantics: with a
      match, the result is the trimmed capture of the leftmost one; with none,
      the trimmed text. */
  lemma ExtractFollowsRegex(text: string)
    ensures forall i, j, k :: Leftmost(text, i, j, k) ==> ExtractCode(text) == Trim(text[j..k])
    ensures NoMatch(text) ==> ExtractCode(text) == Trim(text)
  {
    match FirstMatch(text, 0)
    case Some(m) =>
      forall i, j, k | Leftmost(text, i, j, k)
        ensures j == m.lo && k == m.hi
      {
        MatchUnique(text, i, j, k, m.lo, m.hi);
      }
    case None =>
  }

  /** A match at a given start is unique: the tag is the maximal word run and
      the capture stops at the first closing fence. */
  lemma MatchUnique(s: string, i: int, j: int, k: int, j': int, k': int)
    requires IsMatch(s, i, j, k) && IsMatch(s, i, j', k')
    ensures j == j' && k == k'
  {
  }

  /** A match inside a slice is a match in the whole string. */
  lemma MatchInSlice(s: string, a: nat, b: nat, i: int, j: int, k: int)
    requires a <= b <= |s|
    requires IsMatch(s[a..b], i, j, k)
    ensures IsMatch(s, a + i, a + j, a + k)
  {
    var t := s[a..b];
    OccursInSlice(s, Opening, a, b, i);
    OccursInSlice(s, Closing, a, b, k);
    forall m | a + j <= m < a + k
      ensures !OccursAt(s, Closing, m)
    {
      if OccursAt(s, Closing, m) {
        OccursOfSlice(s, Closing, a, b, m);
      }
    }
    assert forall m :: a + i + 3 <= m < a + j - 1 ==> s[m] == t[m - a];
    assert s[a + j - 1] == t[j - 1];
  }

  /** Text without a closing fence cannot hold a match. */
  lemma NoClosingNoMatch(t: string)
    requires forall m :: !OccursAt(t, Closing, m)
    ensures NoMatch(t)
  {
  }

  /** Extraction is idempotent: the extracted code holds no match of its own,
      so extracting again only trims it, and it is already trimmed. */
  lemma ExtractIdempotent(text: string)
    ensures ExtractCode(ExtractCode(text)) == ExtractCode(text)
  {
    match FirstMatch(text, 0)
    case Some(m) =>
      CaptureHasNoMatch(text, m);
      ExtractFollowsRegex(ExtractCode(text));
      TrimIdempotent(text[m.lo..m.hi]);
    case None =>
      TrimmedHasNoMatch(text);
      ExtractFollowsRegex(ExtractCode(text));
      TrimIdempotent(text);
  }

  /** The trimmed capture holds no closing fence, since the lazy capture
      stops at the first one. */
  lemma CaptureHasNoMatch(text: string, m: Span)
    requires FirstMatch(text, 0) == Some(m)
    ensures NoMatch(ExtractCode(text))
  {
    CaptureHasNoClosing(text, m.start, m.lo, m.hi);
    var c := text[m.lo..m.hi];
    TrimHasNoClosing(c);
    assert ExtractCode(text) == Trim(c);
  }

  lemma CaptureHasNoClosing(s: string, i: int, j: int, k: int)
    requires IsMatch(s, i, j, k)
    ensures forall p :: !OccursAt(s[j..k], Closing, p)
  {
    forall p | OccursAt(s[j..k], Closing, p)
      ensures false
    {
      OccursInSlice(s, Closing, j, k, p);
    }
  }

  lemma TrimHasNoClosing(c: string)
    requires forall p :: !OccursAt(c, Closing, p)
    ensures NoMatch(Trim(c))
  {
    var r := Trim(c);
    var a :| PaddedAt(r, c, a);
    forall p | OccursAt(r, Closing, p)
      ensures false
    {
      OccursInSlice(c, Closing, a, a + |r|, p);
    }
    NoClosingNoMatch(r);
  }

  /** With no match in the completion there is none in its trimmed text
      either: that text is a slice of the completion. */
  lemma TrimmedHasNoMatch(text: string)
    requires FirstMatch(text, 0).None?
    ensures NoMatch(ExtractCode(text))
  {
    var r := ExtractCode(text);
    assert r == Trim(text);
    var a :| PaddedAt(r, text, a);
    forall i, j, k | IsMatch(r, i, j, k)
      ensures false
    {
      MatchInSlice(text, a, a + |r|, i, j, k);
    }
  }
}
