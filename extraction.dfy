/**
 * LaTeX extraction from the model's reply text (app.py, `upload_image`).
 *
 * The server searches the reply for the first fenced block matched by
 *     ```(?:latex)?\n?(.*?)\n?```      (DOTALL, IGNORECASE)
 * and keeps its group 1, stripped; without a match it strips the whole text.
 * Python's general regular-expression engine is not modelled: this module is a
 * hand-written scanner for that one pattern which tries the alternatives in
 * the order the backtracking engine does, and `Strip` is `str.strip()` with a
 * fixed whitespace predicate.
 */
module Extraction {
  import opened Wrappers

  // ---------------------------------------------------------------------------
  // str.strip()
  // ---------------------------------------------------------------------------

  /** The characters Python's `str.isspace()` accepts (and so `str.strip()` removes). */
  predicate IsSpace(c: char) {
    || c == ' '
    || ('\t' <= c <= '\r')
    || ('\U{1C}' <= c <= '\U{1F}')
    || c == '\U{85}' || c == '\U{A0}' || c == '\U{1680}'
    || ('\U{2000}' <= c <= '\U{200A}')
    || c == '\U{2028}' || c == '\U{2029}' || c == '\U{202F}' || c == '\U{205F}' || c == '\U{3000}'
  }

  /** Neither the first nor the last character is whitespace. */
  predicate IsStripped(s: string) {
    s == [] || (!IsSpace(s[0]) && !IsSpace(s[|s| - 1]))
  }

  /** Every character of `s[lo..hi]` is whitespace. */
  predicate AllSpace(s: string, lo: int, hi: int)
    requires 0 <= lo <= hi <= |s|
  {
    forall k :: lo <= k < hi ==> IsSpace(s[k])
  }

  /** The scan from the left in `str.strip()`: the first non-whitespace position from `i` on. */
  function SkipLeading(s: string, i: nat): (j: nat)
    requires i <= |s|
    decreases |s| - i
    ensures i <= j <= |s| && AllSpace(s, i, j)
    ensures j == |s| || !IsSpace(s[j])
  {
    if i < |s| && IsSpace(s[i]) then SkipLeading(s, i + 1) else i
  }

  /** The scan from the right in `str.strip()`: moves `j` down over whitespace, never below `lo`. */
  function SkipTrailing(s: string, lo: nat, j: nat): (k: nat)
    requires lo <= j <= |s|
    decreases j - lo
    ensures lo <= k <= j && AllSpace(s, k, j)
    ensures k == lo || !IsSpace(s[k - 1])
  {
    if lo < j && IsSpace(s[j - 1]) then SkipTrailing(s, lo, j - 1) else j
  }

  /** `str.strip()`: `s` is whitespace, then `r`, then whitespace, and `r` is stripped. */
  function Strip(s: string): (r: string)
    ensures IsStripped(r)
    ensures |r| <= |s|
    ensures exists lo :: 0 <= lo <= |s| - |r| && Trimmed(s, lo, r)
  {
    var lo := SkipLeading(s, 0);
    var hi := SkipTrailing(s, lo, |s|);
    assert Trimmed(s, lo, s[lo..hi]);
    s[lo..hi]
  }

  /** `r` sits at `s[lo..]` with nothing but whitespace around it. */
  predicate Trimmed(s: string, lo: int, r: string) {
    && 0 <= lo <= lo + |r| <= |s|
    && r == s[lo..lo + |r|]
    && AllSpace(s, 0, lo)
    && AllSpace(s, lo + |r|, |s|)
  }

  /** `r` is the piece of `s` that starts at `lo`. */
  predicate SliceAt(s: string, lo: int, r: string) {
    0 <= lo <= lo + |r| <= |s| && r == s[lo..lo + |r|]
  }

  /** `r` is a contiguous piece of `s`. */
  ghost predicate IsInfix(r: string, s: string) {
    exists lo :: SliceAt(s, lo, r)
  }

  // ---------------------------------------------------------------------------
  // The pattern ```(?:latex)?\n?(.*?)\n?```
  // ---------------------------------------------------------------------------

  /** Three backticks start at `i`. */
  predicate FenceAt(s: string, i: int) {
    0 <= i && i + 3 <= |s| && s[i] == '`' && s[i + 1] == '`' && s[i + 2] == '`'
  }

  /** Some fence starts at or after `from`. */
  ghost predicate HasFenceFrom(s: string, from: int) {
    exists q :: from <= q && FenceAt(s, q)
  }

  /** An opening fence with a closing fence after it: the precondition for any match. */
  ghost predicate HasFencePair(s: string) {
    exists i, j :: FenceAt(s, i) && i + 3 <= j && FenceAt(s, j)
  }

  /** `c` equals the lower-case ASCII letter `lower` under IGNORECASE. */
  predicate SameLetter(c: char, lower: char)
    requires 'a' <= lower <= 'z'
  {
    c == lower || c as int == lower as int - 32
  }

  /** The optional `latex` tag, in any letter case, starts at `j`. */
  predicate LatexTagAt(s: string, j: int) {
    && 0 <= j && j + 5 <= |s|
    && SameLetter(s[j], 'l') && SameLetter(s[j + 1], 'a') && SameLetter(s[j + 2], 't')
    && SameLetter(s[j + 3], 'e') && SameLetter(s[j + 4], 'x')
  }

  /** The tail `\n?```` can match at `e`, ending group 1 there. */
  predicate ClosesAt(s: string, e: int) {
    (0 <= e < |s| && s[e] == '\n' && FenceAt(s, e + 1)) || FenceAt(s, e)
  }

  /**
   * Where group 1 may start when the opening fence is at `i`: after the fence,
   * the optional tag and the optional newline, each either taken or skipped.
   */
  predicate GroupStart(s: string, i: int, c: int) {
    || c == i + 3
    || (c == i + 4 && 0 <= i + 3 < |s| && s[i + 3] == '\n')
    || (c == i + 8 && LatexTagAt(s, i + 3))
    || (c == i + 9 && LatexTagAt(s, i + 3) && i + 8 < |s| && s[i + 8] == '\n')
  }

  /** A successful search: the opening fence and the bounds of group 1. */
  datatype Match = Match(open: nat, start: nat, end: nat)

  /**
   * The lazy `(.*?)` followed by `\n?````: group 1 grows one character at a
   * time from `e` until the tail matches.
   */
  function CloseFrom(s: string, e: nat): (r: Option<nat>)
    requires e <= |s|
    decreases |s| - e
    ensures r.Some? ==> e <= r.value <= |s| && ClosesAt(s, r.value)
    ensures r.Some? ==> forall t :: e <= t < r.value ==> !ClosesAt(s, t)
    ensures r.None? <==> !HasFenceFrom(s, e)
  {
    if ClosesAt(s, e) then Some(e)
    else if e < |s| then
      var r := CloseFrom(s, e + 1);
      assert !FenceAt(s, e);
      r
    else None
  }

  /** Group 1 starting at `j`, if a closing fence follows. */
  function BodyFrom(s: string, i: nat, j: nat): Option<Match>
    requires j <= |s|
  {
    match CloseFrom(s, j)
    case Some(e) => Some(Match(i, j, e))
    case None => None
  }

  /** The greedy `\n?` after the tag: take the newline if the rest still matches. */
  function AfterTag(s: string, i: nat, j: nat): Option<Match>
    requires j <= |s|
  {
    if j < |s| && s[j] == '\n' && BodyFrom(s, i, j + 1).Some? then BodyFrom(s, i, j + 1)
    else BodyFrom(s, i, j)
  }

  /** The whole pattern anchored at `i`, with `(?:latex)?` tried before its omission. */
  function MatchAt(s: string, i: nat): (r: Option<Match>)
    requires i <= |s|
    ensures r.Some? <==> FenceAt(s, i) && HasFenceFrom(s, i + 3)
    ensures r.Some? ==> r.value.open == i && GroupStart(s, i, r.value.start)
    ensures r.Some? ==> r.value.start <= r.value.end <= |s| && ClosesAt(s, r.value.end)
    ensures r.Some? ==> forall t :: r.value.start <= t < r.value.end ==> !ClosesAt(s, t)
    ensures r.Some? ==> forall c :: r.value.start < c && GroupStart(s, i, c) ==> !HasFenceFrom(s, c)
  {
    if !FenceAt(s, i) then None
    else if LatexTagAt(s, i + 3) && AfterTag(s, i, i + 8).Some? then AfterTag(s, i, i + 8)
    else AfterTag(s, i, i + 3)
  }

  /** `re.search`: the match at the leftmost position, from `from` on, where one exists. */
  function SearchFrom(s: string, from: nat): (r: Option<Match>)
    requires from <= |s|
    decreases |s| - from
    ensures r.Some? ==> from <= r.value.open <= |s| && MatchAt(s, r.value.open) == r
    ensures r.Some? ==> forall t :: from <= t < r.value.open ==> !FenceAt(s, t)
    ensures r.None? <==> forall i, j :: from <= i && FenceAt(s, i) && i + 3 <= j ==> !FenceAt(s, j)
  {
    var here := MatchAt(s, from);
    if here.Some? then here
    else if from < |s| then
      SearchFrom(s, from + 1)
    else here
  }

  /**
   * The match `re.search` reports, stated without the scanner: the opening
   * fence is the first one in `raw`; group 1 starts after the longest of the
   * optional prefixes that still leaves a closing fence to find; and it ends at
   * the first place where `\n?```` matches.
   */
  ghost predicate IsLeftmostMatch(raw: string, m: Match) {
    && FenceAt(raw, m.open)
    && (forall t :: 0 <= t < m.open ==> !FenceAt(raw, t))
    && GroupStart(raw, m.open, m.start)
    && (forall c :: m.start < c && GroupStart(raw, m.open, c) ==> !HasFenceFrom(raw, c))
    && m.start <= m.end <= |raw|
    && ClosesAt(raw, m.end)
    && (forall t :: m.start <= t < m.end ==> !ClosesAt(raw, t))
  }

  /** The match the server finds in `raw`, if any. */
  function Locate(raw: string): (r: Option<Match>)
    ensures r.None? <==> !HasFencePair(raw)
    ensures r.Some? ==> IsLeftmostMatch(raw, r.value) && r.value.open + 3 <= r.value.start
  {
    SearchFrom(raw, 0)
  }

  /** The leftmost match is unique, so the scanner finds exactly the one the pattern describes. */
  lemma LocateFindsLeftmostMatch(raw: string, m: Match)
    requires IsLeftmostMatch(raw, m)
    ensures Locate(raw) == Some(m)
  {
  }

  /** A fence inside a piece of `s` is a fence of `s`. */
  lemma FenceInSlice(s: string, lo: int, r: string, t: int)
    requires SliceAt(s, lo, r) && FenceAt(r, t)
    ensures FenceAt(s, lo + t)
  {
  }

  /** A piece of a piece of `s` is a piece of `s`. */
  lemma SliceOfSlice(s: string, a: int, m: string, b: int, r: string)
    requires SliceAt(s, a, m) && SliceAt(m, b, r)
    ensures SliceAt(s, a + b, r)
  {
    assert forall k :: 0 <= k < |r| ==> r[k] == m[b + k] == s[a + b + k];
  }

  /** A piece of a text without an opening and a closing fence has none either. */
  lemma InfixKeepsNoFencePair(s: string, r: string)
    requires IsInfix(r, s) && !HasFencePair(s)
    ensures !HasFencePair(r)
  {
    var lo :| SliceAt(s, lo, r);
    forall i | FenceAt(r, i) ensures FenceAt(s, lo + i) {
      FenceInSlice(s, lo, r, i);
    }
  }

  /** Group 1 holds no triple backtick: the lazy body stops at the first one. */
  lemma GroupHasNoFence(raw: string, m: Match)
    requires IsLeftmostMatch(raw, m)
    ensures !HasFenceFrom(raw[m.start..m.end], 0)
  {
    var body := raw[m.start..m.end];
    forall t | FenceAt(body, t) ensures ClosesAt(raw, m.start + t) && m.start + t < m.end {
      FenceInSlice(raw, m.start, body, t);
    }
  }

  /** Stripping keeps a piece of the text. */
  lemma StripIsInfix(s: string)
    ensures IsInfix(Strip(s), s)
    ensures !HasFencePair(s) ==> !HasFencePair(Strip(s))
  {
    var r := Strip(s);
    var lo :| 0 <= lo <= |s| - |r| && Trimmed(s, lo, r);
    assert SliceAt(s, lo, r);
    if !HasFencePair(s) {
      InfixKeepsNoFencePair(s, r);
    }
  }

  /** The stripped group 1 is a piece of the reply and holds no triple backtick. */
  lemma StrippedGroup(raw: string, m: Match)
    requires IsLeftmostMatch(raw, m)
    ensures IsInfix(Strip(raw[m.start..m.end]), raw)
    ensures !HasFenceFrom(Strip(raw[m.start..m.end]), 0)
  {
    var body := raw[m.start..m.end];
    var r := Strip(body);
    var lo :| 0 <= lo <= |body| - |r| && Trimmed(body, lo, r);
    assert SliceAt(raw, m.start, body);
    SliceOfSlice(raw, m.start, body, lo, r);
    GroupHasNoFence(raw, m);
    forall t | FenceAt(r, t) ensures FenceAt(body, lo + t) {
      FenceInSlice(body, lo, r, t);
    }
  }

  /** app.py's extraction: group 1 of the first match, stripped; else the stripped text. */
  function Extract(raw: string): (r: string)
    ensures IsStripped(r)
    ensures IsInfix(r, raw)
    ensures !HasFencePair(raw) ==> r == Strip(raw)
    ensures HasFencePair(raw) ==> !HasFenceFrom(r, 0)
    ensures !HasFencePair(r)
  {
    match Locate(raw)
    case Some(m) =>
      StrippedGroup(raw, m);
      Strip(raw[m.start..m.end])
    case None =>
      StripIsInfix(raw);
      Strip(raw)
  }

  /** `str.strip()` leaves an already stripped text alone. */
  lemma StripOfStripped(s: string)
    requires IsStripped(s)
    ensures Strip(s) == s
  {
  }

  /** Extracting from the extracted code returns it unchanged. */
  lemma ExtractIdempotent(raw: string)
    ensures Extract(Extract(raw)) == Extract(raw)
  {
  }

  /** The extraction over an already stripped reply without a fenced block is the reply itself. */
  lemma ExtractPlainText(raw: string)
    requires IsStripped(raw) && !HasFencePair(raw)
    ensures Extract(raw) == raw
  {
  }

  /** Group 1 of the leftmost match, stripped, is the code: a declarative statement of the search. */
  lemma ExtractFencedBlock(raw: string, m: Match)
    requires IsLeftmostMatch(raw, m)
    ensures Extract(raw) == Strip(raw[m.start..m.end])
  {
    LocateFindsLeftmostMatch(raw, m);
  }
}
