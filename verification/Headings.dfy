/** Unnumbered headings: what a short all-caps line aligns with (`_clause_key` in app/services/diffing.py). */
module Headings {
  import opened Wrappers
  import opened Text
  import opened ClauseKeys

  ghost predicate IsWord(w: string) {
    w != "" && forall i :: 0 <= i < |w| ==> !IsSpace(w[i])
  }

  ghost predicate AreWords(words: seq<string>) {
    forall k :: 0 <= k < |words| ==> IsWord(words[k])
  }

  ghost predicate AreGaps(gaps: seq<string>) {
    forall k :: 0 <= k < |gaps| ==> IsGap(gaps[k])
  }

  /** The words with a gap between each two. */
  function Spread(words: seq<string>, gaps: seq<string>): string
    requires |words| == |gaps| + 1
  {
    if |words| == 1 then words[0] else words[0] + gaps[0] + Spread(words[1..], gaps[1..])
  }

  function Lowered(words: seq<string>): seq<string> {
    seq(|words|, k requires 0 <= k < |words| => Lower(words[k]))
  }

  // ----- Splitting gives the words back -----

  lemma {:induction false} WordEndsAt(s: string, i: nat, j: nat)
    requires i <= j <= |s| && (j == |s| || IsSpace(s[j]))
    requires forall k :: i <= k < j ==> !IsSpace(s[k])
    ensures WordEnd(s, i) == j
    decreases j - i
  {
    if i < j {
      WordEndsAt(s, i + 1, j);
    }
  }

  lemma {:induction false} FirstWord(s: string, i: nat, lead: string, word: string, rest: string)
    requires i <= |s| && s[i..] == lead + word + rest && Blank(lead) && IsWord(word)
    requires rest == "" || IsSpace(rest[0])
    ensures i + |lead| + |word| <= |s| && s[i + |lead| + |word|..] == rest
    ensures WordsFrom(s, i) == [word] + WordsFrom(s, i + |lead| + |word|)
  {
    var a, e := i + |lead|, i + |lead| + |word|;
    var tail := s[i..];
    assert |s| == i + |tail|;
    forall k | i <= k < |s| ensures s[k] == (lead + word + rest)[k - i] {
      assert s[k] == tail[k - i];
    }
    forall k | i <= k < a ensures IsSpace(s[k]) {
      assert s[k] == lead[k - i];
    }
    forall k | a <= k < e ensures !IsSpace(s[k]) {
      assert s[k] == word[k - a];
    }
    assert e < |s| ==> s[e] == rest[0];
    assert s[a..e] == word && s[e..] == rest;
    RunEndsAt(s, i, a);
    WordEndsAt(s, a, e);
  }

  lemma {:induction false} LastWord(s: string, i: nat, lead: string, word: string)
    requires i <= |s| && s[i..] == lead + word && Blank(lead) && IsWord(word)
    ensures WordsFrom(s, i) == [word]
  {
    assert lead + word == lead + word + "";
    FirstWord(s, i, lead, word, "");
    var e := i + |lead| + |word|;
    assert |s[e..]| == 0;
    assert RunEnd(s, e) == |s| && WordsFrom(s, e) == [];
  }

  lemma {:induction false} TextAfterWord(s: string, i: nat, lead: string, word: string, gap: string, later: string)
    requires i <= |s| && s[i..] == lead + (word + gap + later)
    ensures i + |lead| + |word| <= |s| && s[i + |lead| + |word|..] == gap + later
  {
    assert s[i + |lead| + |word|..] == s[i..][|lead| + |word|..];
  }

  lemma {:induction false} OneMoreWord(
      s: string, i: nat, lead: string, word: string, gap: string, later: string, rest: seq<string>)
    requires i <= |s| && s[i..] == lead + (word + gap + later) && Blank(lead) && IsWord(word) && IsGap(gap)
    requires i + |lead| + |word| <= |s| && WordsFrom(s, i + |lead| + |word|) == rest
    ensures WordsFrom(s, i) == [word] + rest
  {
    assert s[i..] == lead + word + (gap + later);
    FirstWord(s, i, lead, word, gap + later);
  }

  lemma {:induction false} WordsOfSpread(s: string, i: nat, lead: string, words: seq<string>, gaps: seq<string>)
    requires i <= |s| && |words| == |gaps| + 1 && AreWords(words) && AreGaps(gaps) && Blank(lead)
    requires s[i..] == lead + Spread(words, gaps)
    ensures WordsFrom(s, i) == words
    decreases |words|
  {
    assert IsWord(words[0]);
    if |words| == 1 {
      LastWord(s, i, lead, words[0]);
    } else {
      assert IsGap(gaps[0]);
      var later := Spread(words[1..], gaps[1..]);
      TextAfterWord(s, i, lead, words[0], gaps[0], later);
      WordsOfSpread(s, i + |lead| + |words[0]|, gaps[0], words[1..], gaps[1..]);
      OneMoreWord(s, i, lead, words[0], gaps[0], later, words[1..]);
    }
  }

  // ----- Folding case keeps words and gaps -----

  lemma {:induction false} LowerAppend(a: string, b: string)
    ensures Lower(a + b) == Lower(a) + Lower(b)
  {
  }

  lemma {:induction false} LowerKeepsBlank(gap: string)
    requires Blank(gap)
    ensures Lower(gap) == gap
  {
  }

  lemma {:induction false} LowerKeepsWord(w: string)
    requires IsWord(w)
    ensures IsWord(Lower(w))
  {
  }

  lemma {:induction false} LowerOfSpread(words: seq<string>, gaps: seq<string>)
    requires |words| == |gaps| + 1 && AreGaps(gaps)
    ensures Lower(Spread(words, gaps)) == Spread(Lowered(words), gaps)
    decreases |words|
  {
    if |words| > 1 {
      var rest := Spread(words[1..], gaps[1..]);
      assert IsGap(gaps[0]);
      LowerKeepsBlank(gaps[0]);
      LowerAppend(words[0] + gaps[0], rest);
      LowerAppend(words[0], gaps[0]);
      LowerOfSpread(words[1..], gaps[1..]);
      assert Lowered(words)[1..] == Lowered(words[1..]);
    }
  }

  // ----- Stripping the line leaves the words -----

  lemma {:induction false} TrimEndAt(s: string, lo: nat, j: nat, hi: nat)
    requires lo < j <= hi <= |s| && !IsSpace(s[j - 1])
    requires forall k :: j <= k < hi ==> IsSpace(s[k])
    ensures TrimEnd(s, lo, hi) == j
    decreases hi
  {
    if j < hi {
      TrimEndAt(s, lo, j, hi - 1);
    }
  }

  lemma {:induction false} StripOfPadded(lead: string, core: string, trail: string)
    requires Blank(lead) && Blank(trail) && core != "" && Stripped(core)
    ensures Strip(lead + core + trail) == core
  {
    var s, a, e := lead + core + trail, |lead|, |lead + core|;
    forall k | 0 <= k < a ensures IsSpace(s[k]) {
      assert s[k] == lead[k];
    }
    forall k | e <= k < |s| ensures IsSpace(s[k]) {
      assert s[k] == trail[k - e];
    }
    assert s[a] == core[0] && s[e - 1] == core[|core| - 1];
    RunEndsAt(s, 0, a);
    TrimEndAt(s, a, e, |s|);
    assert s[a..e] == core;
  }

  lemma {:induction false} SpreadIsStripped(words: seq<string>, gaps: seq<string>)
    requires |words| == |gaps| + 1 && AreWords(words)
    ensures Spread(words, gaps) != "" && Stripped(Spread(words, gaps))
    decreases |words|
  {
    var core := Spread(words, gaps);
    assert IsWord(words[0]);
    if |words| > 1 {
      var rest := Spread(words[1..], gaps[1..]);
      SpreadIsStripped(words[1..], gaps[1..]);
      assert core == words[0] + gaps[0] + rest;
      assert core[0] == words[0][0] && core[|core| - 1] == rest[|rest| - 1];
    }
  }

  /**
   * A line without clause number is keyed by its words, in lower case with single spaces, if it is short and all-caps,
   * whatever whitespace stands before, between and after them. Otherwise it has no key.
   */
  lemma {:induction false} HeadingsKeyByWords(lead: string, words: seq<string>, gaps: seq<string>, trail: string)
    requires |words| == |gaps| + 1 && AreWords(words) && AreGaps(gaps) && Blank(lead) && Blank(trail)
    ensures var core := Spread(words, gaps);
            var line := lead + core + trail;
            ClauseNumber(line).None? ==>
              ClauseKey(line) == if |core| <= MAX_HEADING_CHARS && IsUpper(core)
                                 then Some(Title(JoinWith(" ", Lowered(words)))) else None
  {
    var core := Spread(words, gaps);
    SpreadIsStripped(words, gaps);
    StripOfPadded(lead, core, trail);
    LowerOfSpread(words, gaps);
    forall k | 0 <= k < |words| ensures IsWord(Lowered(words)[k]) {
      assert IsWord(words[k]);
      LowerKeepsWord(words[k]);
    }
    assert Lower(core)[0..] == "" + Spread(Lowered(words), gaps);
    WordsOfSpread(Lower(core), 0, "", Lowered(words), gaps);
  }

  function Spaces(n: nat): (gaps: seq<string>)
    ensures |gaps| == n
  {
    seq(n, _ => " ")
  }

  lemma {:induction false} JoinIsSpread(words: seq<string>)
    requires words != []
    ensures JoinWith(" ", words) == Spread(words, Spaces(|words| - 1))
    decreases |words|
  {
    if |words| > 1 {
      JoinIsSpread(words[1..]);
      assert Spaces(|words| - 1)[1..] == Spaces(|words| - 2);
    }
  }

  /** Two headings share a key exactly when their words agree up to case. */
  lemma {:induction false} TitlesShareWords(a: seq<string>, b: seq<string>)
    requires a != [] && b != [] && AreWords(a) && AreWords(b)
    ensures Title(JoinWith(" ", Lowered(a))) == Title(JoinWith(" ", Lowered(b))) <==> Lowered(a) == Lowered(b)
  {
    TitleReadsBack(Lowered(a));
    TitleReadsBack(Lowered(b));
  }

  lemma {:induction false} TitleReadsBack(words: seq<string>)
    requires words != []
    ensures AreWords(words) ==> WordsFrom(JoinWith(" ", words), 0) == words
  {
    if AreWords(words) {
      JoinIsSpread(words);
      var s := JoinWith(" ", words);
      assert s[0..] == "" + Spread(words, Spaces(|words| - 1));
      WordsOfSpread(s, 0, "", words, Spaces(|words| - 1));
    }
  }
}
