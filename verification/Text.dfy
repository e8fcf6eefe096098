/** Python string operations the pipeline relies on, as functions on `string`. */
module Text {
  /** Half-open character range into one text. */
  datatype Span = Span(start: nat, end: nat)

  /** `s[start:end]`, which clips to the text. */
  function Slice(s: string, span: Span): string {
    var end := if span.end < |s| then span.end else |s|;
    if span.start <= end then s[span.start..end] else ""
  }

  /** `str.isspace`, which `\s` and `strip` share (the Unicode White_Space set plus U+001C..U+001F). */
  predicate IsSpace(c: char) {
    || '\t' <= c <= '\r'
    || '\U{1c}' <= c <= ' '
    || c == '\U{85}' || c == '\U{a0}' || c == '\U{1680}'
    || '\U{2000}' <= c <= '\U{200a}'
    || c == '\U{2028}' || c == '\U{2029}' || c == '\U{202f}' || c == '\U{205f}' || c == '\U{3000}'
  }

  predicate Blank(s: string) {
    forall i :: 0 <= i < |s| ==> IsSpace(s[i])
  }

  /** Neither end is whitespace: the fixed points of `strip`. */
  predicate Stripped(s: string) {
    s != [] ==> !IsSpace(s[0]) && !IsSpace(s[|s| - 1])
  }

  /** First index at or after `i` that is not whitespace, or the length. */
  function RunEnd(s: string, i: nat): (e: nat)
    requires i <= |s|
    ensures i <= e <= |s|
    decreases |s| - i
  {
    if i < |s| && IsSpace(s[i]) then RunEnd(s, i + 1) else i
  }

  lemma {:induction false} RunEndIsFirst(s: string, i: nat)
    requires i <= |s|
    ensures forall k :: i <= k < RunEnd(s, i) ==> IsSpace(s[k])
    ensures RunEnd(s, i) < |s| ==> !IsSpace(s[RunEnd(s, i)])
    decreases |s| - i
  {
    if i < |s| && IsSpace(s[i]) {
      RunEndIsFirst(s, i + 1);
    }
  }

  /** One past the last index in `[lo, hi)` that is not whitespace, or `lo`. */
  function TrimEnd(s: string, lo: nat, hi: nat): (e: nat)
    requires lo <= hi <= |s|
    ensures lo <= e <= hi
    decreases hi
  {
    if lo < hi && IsSpace(s[hi - 1]) then TrimEnd(s, lo, hi - 1) else hi
  }

  lemma {:induction false} TrimEndIsLast(s: string, lo: nat, hi: nat)
    requires lo <= hi <= |s|
    ensures forall k :: TrimEnd(s, lo, hi) <= k < hi ==> IsSpace(s[k])
    ensures lo < TrimEnd(s, lo, hi) ==> !IsSpace(s[TrimEnd(s, lo, hi) - 1])
    decreases hi
  {
    if lo < hi && IsSpace(s[hi - 1]) {
      TrimEndIsLast(s, lo, hi - 1);
    }
  }

  /** `str.strip`. */
  function Strip(s: string): string {
    var lo := RunEnd(s, 0);
    s[lo..TrimEnd(s, lo, |s|)]
  }

  lemma {:induction false} StripMeans(s: string)
    ensures Stripped(Strip(s))
    ensures Strip(s) == [] <==> Blank(s)
    ensures Stripped(s) ==> Strip(s) == s
  {
    var lo := RunEnd(s, 0);
    RunEndIsFirst(s, 0);
    TrimEndIsLast(s, lo, |s|);
    assert !Blank(s) ==> lo < TrimEnd(s, lo, |s|);
  }

  /** Two newlines stand at `i`. */
  predicate SeparatorAt(s: string, i: nat) {
    i + 1 < |s| && s[i] == '\n' && s[i + 1] == '\n'
  }

  ghost predicate HasSeparator(s: string) {
    exists i: nat :: SeparatorAt(s, i)
  }

  /** A newline at `i`, a later newline at `j`, and only whitespace between them. */
  predicate BlankLineAt(s: string, i: nat, j: nat) {
    i < j < |s| && s[i] == '\n' && s[j] == '\n' && forall k :: i < k < j ==> IsSpace(s[k])
  }

  ghost predicate HasBlankLine(s: string) {
    exists i: nat, j: nat :: BlankLineAt(s, i, j)
  }

  lemma {:induction false} SeparatorIsBlankLine(s: string)
    requires !HasBlankLine(s)
    ensures !HasSeparator(s)
  {
    if i: nat :| SeparatorAt(s, i) {
      assert BlankLineAt(s, i, i + 1);
    }
  }

  lemma {:induction false} SliceKeepsNoBlankLine(s: string, lo: nat, hi: nat)
    requires lo <= hi <= |s|
    requires forall i: nat, j: nat :: lo <= i && j < hi ==> !BlankLineAt(s, i, j)
    ensures !HasBlankLine(s[lo..hi])
  {
    var t := s[lo..hi];
    if i: nat, j: nat :| BlankLineAt(t, i, j) {
      assert forall k :: lo + i < k < lo + j ==> s[k] == t[k - lo];
      assert BlankLineAt(s, lo + i, lo + j);
    }
  }

  lemma {:induction false} StripKeepsNoBlankLine(s: string)
    requires !HasBlankLine(s)
    ensures !HasBlankLine(Strip(s))
  {
    var lo := RunEnd(s, 0);
    TrimEndIsLast(s, lo, |s|);
    SliceKeepsNoBlankLine(s, lo, TrimEnd(s, lo, |s|));
  }

}
