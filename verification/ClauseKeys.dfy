/** Clause numbers and headings as alignment keys (app/services/diffing.py), on ASCII lines. */
module ClauseKeys {
  import opened Wrappers
  import opened Text

  /** A clause number as its parts, or an unnumbered heading as its normalized text. */
  datatype Key = Number(parts: seq<nat>) | Title(text: string)

  const MAX_HEADING_CHARS: nat := 60

  // ----- Characters and decimal numbers -----

  predicate IsDigit(c: char) {
    '0' <= c <= '9'
  }

  predicate IsUpperChar(c: char) {
    'A' <= c <= 'Z'
  }

  predicate IsLowerChar(c: char) {
    'a' <= c <= 'z'
  }

  function LowerChar(c: char): char {
    if IsUpperChar(c) then (c as int + 32) as char else c
  }

  function Lower(s: string): string {
    seq(|s|, i requires 0 <= i < |s| => LowerChar(s[i]))
  }

  predicate IsUpper(s: string) {
    (exists c <- s :: IsUpperChar(c)) && forall c <- s :: !IsLowerChar(c)
  }

  predicate AllDigits(s: string) {
    s != [] && forall i :: 0 <= i < |s| ==> IsDigit(s[i])
  }

  /** `int(s)` on a digit string. */
  function NatOf(s: string): nat {
    if s == [] then 0
    else
      var c := s[|s| - 1];
      10 * NatOf(s[..|s| - 1]) + if IsDigit(c) then c as int - '0' as int else 0
  }

  /** `str(n)`. */
  function StrOf(n: nat): string {
    var last := ('0' as int + n % 10) as char;
    if n < 10 then [last] else StrOf(n / 10) + [last]
  }

  lemma {:induction false} StrOfIsDigits(n: nat)
    ensures AllDigits(StrOf(n)) && NatOf(StrOf(n)) == n
  {
    if n >= 10 {
      StrOfIsDigits(n / 10);
      assert StrOf(n)[..|StrOf(n)| - 1] == StrOf(n / 10);
    }
  }

  /** Leading zeros do not change the number. */
  lemma {:induction false} LeadingZeros(zeros: string, digits: string)
    requires forall i :: 0 <= i < |zeros| ==> zeros[i] == '0'
    ensures NatOf(zeros + digits) == NatOf(digits)
  {
    if digits != [] {
      var init := digits[..|digits| - 1];
      LeadingZeros(zeros, init);
      assert (zeros + digits)[..|zeros + digits| - 1] == zeros + init;
    } else if zeros != [] {
      var init := zeros[..|zeros| - 1];
      LeadingZeros(init, []);
      assert (zeros + digits)[..|zeros + digits| - 1] == init + [];
    }
  }

  // ----- Joining and splitting -----

  function JoinWith(sep: string, parts: seq<string>): string {
    if parts == [] then ""
    else if |parts| == 1 then parts[0]
    else parts[0] + sep + JoinWith(sep, parts[1..])
  }

  function WordEnd(s: string, i: nat): (e: nat)
    requires i <= |s|
    ensures i <= e <= |s|
    decreases |s| - i
  {
    if i < |s| && !IsSpace(s[i]) then WordEnd(s, i + 1) else i
  }

  /** `str.split()` from position `i` on. */
  function WordsFrom(s: string, i: nat): seq<string>
    requires i <= |s|
    decreases |s| - i
  {
    var start := RunEnd(s, i);
    RunEndIsFirst(s, i);
    if start == |s| then [] else [s[start..WordEnd(s, start)]] + WordsFrom(s, WordEnd(s, start))
  }

  // ----- Clause numbers -----

  function DigitsEnd(s: string, i: nat): (e: nat)
    requires i <= |s|
    ensures i <= e <= |s|
    decreases |s| - i
  {
    if i < |s| && IsDigit(s[i]) then DigitsEnd(s, i + 1) else i
  }

  datatype Scanned = Scanned(parts: seq<nat>, end: nat)

  /** `\d+(?:\.\d+)*`, which always matches as far as it can. */
  function ScanNumber(s: string, i: nat): (r: Scanned)
    requires i < |s| && IsDigit(s[i])
    ensures i < r.end <= |s| && r.parts != []
    decreases |s| - i
  {
    var e := DigitsEnd(s, i);
    var n := NatOf(s[i..e]);
    if e + 1 < |s| && s[e] == '.' && IsDigit(s[e + 1]) then
      var rest := ScanNumber(s, e + 1);
      Scanned([n] + rest.parts, rest.end)
    else Scanned([n], e)
  }

  predicate IsPunct(c: char) {
    c == '.' || c == ')'
  }

  /** `[.)]?`. */
  function SkipPunct(s: string, i: nat): (e: nat)
    requires i <= |s|
    ensures i <= e <= |s|
  {
    if i < |s| && IsPunct(s[i]) then i + 1 else i
  }

  /** `\s+\S`. */
  predicate BodyFollows(s: string, i: nat)
    requires i <= |s|
  {
    i < RunEnd(s, i) < |s|
  }

  predicate StartsWithFold(s: string, word: string) {
    |word| <= |s| && forall i :: 0 <= i < |word| ==> LowerChar(s[i]) == word[i]
  }

  /** Length of a leading `article`, `section` or `clause` in any case, else 0. */
  function PrefixLength(s: string): (n: nat)
    ensures n <= |s|
  {
    if StartsWithFold(s, "article") || StartsWithFold(s, "section") then 7
    else if StartsWithFold(s, "clause") then 6
    else 0
  }

  /** The number that `_CLAUSE_NUMBER_PATTERN` captures at the start of the line. */
  function ClauseNumber(line: string): Option<seq<nat>> {
    var p := PrefixLength(line);
    var start := RunEnd(line, p);
    if p > 0 then
      if start == p || start == |line| || !IsDigit(line[start]) then None
      else
        var number := ScanNumber(line, start);
        if BodyFollows(line, SkipPunct(line, number.end)) then Some(number.parts) else None
    else if line == [] || !IsDigit(line[0]) then None
    else
      var number := ScanNumber(line, 0);
      var e := DigitsEnd(line, 0);
      if |number.parts| > 1 && BodyFollows(line, SkipPunct(line, number.end)) then Some(number.parts)
      else if e < |line| && IsPunct(line[e]) && BodyFollows(line, e + 1) then Some([NatOf(line[..e])])
      else if BodyFollows(line, e) && IsUpperChar(line[RunEnd(line, e)]) then Some([NatOf(line[..e])])
      else None
  }

  /** `_clause_key`: the number of a numbered line, the folded text of a short all-caps line. */
  function ClauseKey(line: string): Option<Key> {
    var number := ClauseNumber(line);
    var stripped := Strip(line);
    if number.Some? then Some(Number(number.value))
    else if 0 < |stripped| <= MAX_HEADING_CHARS && IsUpper(stripped) then
      Some(Title(JoinWith(" ", WordsFrom(Lower(stripped), 0))))
    else None
  }

  function StrsOf(parts: seq<nat>): seq<string> {
    seq(|parts|, i requires 0 <= i < |parts| => StrOf(parts[i]))
  }

  /** `_clause_ref`. */
  function ClauseRef(key: Option<Key>): Option<string> {
    match key
    case None => None
    case Some(Number(parts)) => Some(JoinWith(".", StrsOf(parts)))
    case Some(Title(text)) => Some(text)
  }

  // ----- Every spelling of a number has the same key -----

  lemma {:induction false} RunEndsAt(s: string, i: nat, j: nat)
    requires i <= j < |s| && !IsSpace(s[j])
    requires forall k :: i <= k < j ==> IsSpace(s[k])
    ensures RunEnd(s, i) == j
    decreases j - i
  {
    if i < j {
      RunEndsAt(s, i + 1, j);
    }
  }

  lemma {:induction false} DigitsEndAt(s: string, i: nat, j: nat)
    requires i <= j <= |s| && (j == |s| || !IsDigit(s[j]))
    requires forall k :: i <= k < j ==> IsDigit(s[k])
    ensures DigitsEnd(s, i) == j
    decreases j - i
  {
    if i < j {
      DigitsEndAt(s, i + 1, j);
    }
  }

  function NatsOf(digits: seq<string>): seq<nat> {
    seq(|digits|, i requires 0 <= i < |digits| => NatOf(digits[i]))
  }

  ghost predicate Numerals(digits: seq<string>) {
    digits != [] && forall i :: 0 <= i < |digits| ==> AllDigits(digits[i])
  }

  /** The characters at `i` would extend a clause number that ends there. */
  predicate Continues(s: string, i: nat) {
    i < |s| && (IsDigit(s[i]) || (s[i] == '.' && i + 1 < |s| && IsDigit(s[i + 1])))
  }

  predicate ReadsAt(s: string, i: nat, part: string) {
    i + |part| <= |s| && s[i..i + |part|] == part
  }

  lemma {:induction false} ReadsSplit(s: string, i: nat, a: string, b: string)
    ensures ReadsAt(s, i, a + b) <==> ReadsAt(s, i, a) && ReadsAt(s, i + |a|, b)
  {
    if ReadsAt(s, i, a + b) {
      var whole := s[i..i + |a + b|];
      assert whole[..|a|] == a && whole[|a|..] == b;
      assert s[i..i + |a|] == whole[..|a|] && s[i + |a|..i + |a| + |b|] == whole[|a|..];
    }
    if ReadsAt(s, i, a) && ReadsAt(s, i + |a|, b) {
      assert s[i..i + |a + b|] == s[i..i + |a|] + s[i + |a|..i + |a| + |b|];
    }
  }

  lemma {:induction false} ReadsDotted(s: string, i: nat, first: string, tail: string)
    requires ReadsAt(s, i, first + "." + tail)
    ensures ReadsAt(s, i, first) && s[i + |first|] == '.' && ReadsAt(s, i + |first| + 1, tail)
  {
    ReadsSplit(s, i, first + ".", tail);
    ReadsSplit(s, i, first, ".");
    assert s[i + |first|] == s[i + |first|..i + |first| + 1][0];
  }

  lemma {:induction false} DigitsRead(s: string, i: nat, digits: string)
    requires AllDigits(digits) && ReadsAt(s, i, digits)
    requires i + |digits| == |s| || !IsDigit(s[i + |digits|])
    ensures IsDigit(s[i]) && DigitsEnd(s, i) == i + |digits|
  {
    forall k | i <= k < i + |digits| ensures IsDigit(s[k]) {
      assert s[k] == digits[k - i];
    }
    DigitsEndAt(s, i, i + |digits|);
  }

  lemma {:induction false} ScanDotted(s: string, i: nat, first: string, e: nat)
    requires AllDigits(first) && ReadsAt(s, i, first) && e == i + |first| + 1 < |s| && s[e - 1] == '.' && IsDigit(s[e])
    ensures IsDigit(s[i]) && ScanNumber(s, i) == Scanned([NatOf(first)] + ScanNumber(s, e).parts, ScanNumber(s, e).end)
  {
    DigitsRead(s, i, first);
  }

  lemma {:induction false} ScanLast(s: string, i: nat, digits: string, end: nat)
    requires AllDigits(digits) && ReadsAt(s, i, digits) && end == i + |digits| && !Continues(s, end)
    ensures i < |s| && IsDigit(s[i])
    ensures ScanNumber(s, i) == Scanned([NatOf(digits)], end)
    ensures DigitsEnd(s, i) == end && s[i..end] == digits
  {
    DigitsRead(s, i, digits);
  }

  lemma {:induction false} JoinedNats(digits: seq<string>)
    requires Numerals(digits)
    ensures |digits| == 1 ==> JoinWith(".", digits) == digits[0] && NatsOf(digits) == [NatOf(digits[0])]
    ensures |digits| > 1 ==>
              && Numerals(digits[1..])
              && JoinWith(".", digits) == digits[0] + "." + JoinWith(".", digits[1..])
              && NatsOf(digits) == [NatOf(digits[0])] + NatsOf(digits[1..])
  {
  }

  lemma {:induction false} ScanSpelled(s: string, i: nat, digits: seq<string>, end: nat)
    requires Numerals(digits) && ReadsAt(s, i, JoinWith(".", digits))
    requires end == i + |JoinWith(".", digits)| && !Continues(s, end)
    ensures i < |s| && IsDigit(s[i])
    ensures ScanNumber(s, i) == Scanned(NatsOf(digits), end)
    ensures |digits| == 1 ==> DigitsEnd(s, i) == end && s[i..end] == digits[0]
    decreases |digits|
  {
    var first := digits[0];
    JoinedNats(digits);
    if |digits| == 1 {
      ScanLast(s, i, first, end);
    } else {
      var rest := digits[1..];
      var e := i + |first| + 1;
      ReadsDotted(s, i, first, JoinWith(".", rest));
      ScanSpelled(s, e, rest, end);
      ScanDotted(s, i, first, e);
    }
  }

  /** A clause prefix in any case with the whitespace after it, or nothing. */
  ghost predicate IsPrefix(prefix: string, word: string) {
    || (prefix == "" && word == "")
    || (word in {"article", "section", "clause"} && |word| < |prefix| && StartsWithFold(prefix, word)
        && Blank(prefix[|word|..]))
  }

  ghost predicate IsGap(gap: string) {
    gap != "" && Blank(gap)
  }

  /** A numbered line put together from its parts. */
  function Line(prefix: string, digits: seq<string>, punct: string, gap: string, title: string): string {
    prefix + JoinWith(".", digits) + punct + gap + title
  }

  lemma {:induction false} PrefixOf(line: string, prefix: string, word: string)
    requires IsPrefix(prefix, word) && prefix <= line
    requires |prefix| < |line| && IsDigit(line[|prefix|])
    ensures PrefixLength(line) == |word|
    ensures RunEnd(line, |word|) == |prefix|
  {
    if prefix == "" {
      assert !IsLowerChar(LowerChar(line[0]));
      assert !StartsWithFold(line, "article") && !StartsWithFold(line, "section") && !StartsWithFold(line, "clause");
      RunEndsAt(line, 0, 0);
    } else {
      forall k | |word| <= k < |prefix| ensures IsSpace(line[k]) {
        assert line[k] == prefix[|word|..][k - |word|];
      }
      assert StartsWithFold(line, word);
      if word == "clause" {
        assert LowerChar(line[0]) == 'c';
        assert !StartsWithFold(line, "article") && !StartsWithFold(line, "section");
      }
      RunEndsAt(line, |word|, |prefix|);
    }
  }

  /** The line reads, from `a` on, as number, optional punctuation, whitespace and body at `e`, `p` and `t`. */
  ghost predicate NumberedAt(line: string, a: nat, digits: seq<string>, e: nat, p: nat, t: nat) {
    && ReadsAt(line, a, JoinWith(".", digits))
    && e == a + |JoinWith(".", digits)|
    && e <= p < t < |line|
    && (p == e || (p == e + 1 && IsPunct(line[e])))
    && (forall k :: p <= k < t ==> IsSpace(line[k]))
    && !IsSpace(line[t])
  }

  lemma {:induction false} NumberReads(line: string, a: nat, digits: seq<string>, e: nat, p: nat, t: nat)
    requires Numerals(digits) && NumberedAt(line, a, digits, e, p, t)
    requires RunEnd(line, PrefixLength(line)) == a && (PrefixLength(line) == 0 ==> a == 0)
    requires a > 0 ==> 0 < PrefixLength(line) < a
    ensures ClauseNumber(line) ==
            if a > 0 || |digits| > 1 || p > e || IsUpperChar(line[t]) then Some(NatsOf(digits)) else None
  {
    assert IsSpace(line[p]);
    ScanSpelled(line, a, digits, e);
    RunEndsAt(line, p, t);
    assert SkipPunct(line, e) == p;
    if a == 0 && |digits| == 1 {
      assert NatsOf(digits) == [NatOf(line[..e])];
      if p == e {
        RunEndsAt(line, e, t);
      }
    }
  }

  lemma {:induction false} LineLayout(prefix: string, digits: seq<string>, punct: string, gap: string, title: string)
    requires punct in {"", ".", ")"} && IsGap(gap)
    requires title != "" && !IsSpace(title[0])
    ensures var line, a := Line(prefix, digits, punct, gap, title), |prefix|;
            var e := a + |JoinWith(".", digits)|;
            var t := e + |punct| + |gap|;
            prefix <= line && NumberedAt(line, a, digits, e, e + |punct|, t) && line[t] == title[0]
  {
    var line, a := Line(prefix, digits, punct, gap, title), |prefix|;
    var number := JoinWith(".", digits);
    var e := a + |number|;
    var p := e + |punct|;
    assert line[a..e] == number;
    forall k | p <= k < p + |gap| ensures IsSpace(line[k]) {
      assert line[k] == gap[k - p];
    }
    assert punct != "" ==> line[e] == punct[0];
  }


  lemma {:induction false} StartsWithDigit(line: string, a: nat, digits: seq<string>)
    requires Numerals(digits) && ReadsAt(line, a, JoinWith(".", digits))
    ensures a < |line| && IsDigit(line[a])
  {
    var number := JoinWith(".", digits);
    assert AllDigits(digits[0]);
    assert number[0] == digits[0][0];
    assert line[a] == line[a..a + |number|][0];
  }


  /**
   * Any spelling of a number - prefixed, zero-padded or punctuated - reads as
   * that number, if and only if it has a prefix, two parts, punctuation or an
   * uppercase letter after it.
   */
  lemma {:induction false} SpellingsNormalize(
      prefix: string, word: string, digits: seq<string>, punct: string, gap: string, title: string)
    requires IsPrefix(prefix, word) && Numerals(digits) && punct in {"", ".", ")"} && IsGap(gap)
    requires title != "" && !IsSpace(title[0])
    ensures ClauseKey(Line(prefix, digits, punct, gap, title)) == Some(Number(NatsOf(digits)))
       <==> prefix != "" || |digits| > 1 || punct != "" || IsUpperChar(title[0])
  {
    var line, a := Line(prefix, digits, punct, gap, title), |prefix|;
    var e := a + |JoinWith(".", digits)|;
    LineLayout(prefix, digits, punct, gap, title);
    StartsWithDigit(line, a, digits);
    PrefixOf(line, prefix, word);
    NumberReads(line, a, digits, e, e + |punct|, e + |punct| + |gap|);
  }

  lemma {:induction false} DigitsEndMeans(s: string, i: nat)
    requires i <= |s|
    ensures forall k :: i <= k < DigitsEnd(s, i) ==> IsDigit(s[k])
    decreases |s| - i
  {
    if i < |s| && IsDigit(s[i]) {
      DigitsEndMeans(s, i + 1);
    }
  }

  lemma {:induction false} DigitsAt(s: string, i: nat)
    requires i < |s| && IsDigit(s[i])
    ensures i < DigitsEnd(s, i) && AllDigits(s[i..DigitsEnd(s, i)])
  {
    DigitsEndMeans(s, i);
  }

  lemma {:induction false} CutAtDot(s: string, i: nat, e: nat, end: nat)
    requires i <= e < end <= |s| && s[e] == '.'
    ensures s[i..end] == s[i..e] + "." + s[e + 1..end]
  {
  }

  lemma {:induction false} ScannedIsSpelled(s: string, i: nat) returns (digits: seq<string>)
    requires i < |s| && IsDigit(s[i])
    ensures Numerals(digits) && NatsOf(digits) == ScanNumber(s, i).parts
    ensures s[i..ScanNumber(s, i).end] == JoinWith(".", digits)
    decreases |s| - i
  {
    var e := DigitsEnd(s, i);
    DigitsAt(s, i);
    digits := [s[i..e]];
    if e + 1 < |s| && s[e] == '.' && IsDigit(s[e + 1]) {
      var rest := ScannedIsSpelled(s, e + 1);
      digits := [s[i..e]] + rest;
      assert digits[1..] == rest;
      JoinedNats(digits);
      var end := ScanNumber(s, e + 1).end;
      CutAtDot(s, i, e, end);
    }
  }

  lemma {:induction false} FiveParts(line: string, a: nat, end: nat, p: nat, t: nat)
    requires a <= end <= p <= t <= |line|
    ensures line == line[..a] + line[a..end] + line[end..p] + line[p..t] + line[t..]
  {
  }

  /** What follows a number: optional punctuation up to `p`, then whitespace and a title. */
  lemma {:induction false} TailIsTitle(line: string, prefix: string, digits: seq<string>, end: nat, p: nat)
      returns (punct: string, gap: string, title: string)
    requires prefix <= line && |prefix| <= end <= p <= |line| && line[|prefix|..end] == JoinWith(".", digits)
    requires (p == end || (p == end + 1 && IsPunct(line[end]))) && BodyFollows(line, p)
    ensures line == Line(prefix, digits, punct, gap, title)
    ensures punct in {"", ".", ")"} && (punct != "" <==> p > end)
    ensures IsGap(gap) && title != "" && !IsSpace(title[0]) && title[0] == line[RunEnd(line, p)]
  {
    var t := RunEnd(line, p);
    RunEndIsFirst(line, p);
    punct, gap, title := line[end..p], line[p..t], line[t..];
    FiveParts(line, |prefix|, end, p, t);
    assert line[..|prefix|] == prefix;
    assert p > end ==> punct == [line[end]];
    assert title[0] == line[t];
  }

  lemma {:induction false} PrefixIsPrefix(line: string) returns (prefix: string, word: string)
    requires var n := PrefixLength(line); n > 0 ==> n < RunEnd(line, n)
    ensures var n := PrefixLength(line);
            IsPrefix(prefix, word) && prefix == if n > 0 then line[..RunEnd(line, n)] else ""
  {
    var n := PrefixLength(line);
    if n == 0 {
      prefix, word := "", "";
    } else {
      var start := RunEnd(line, n);
      RunEndIsFirst(line, n);
      prefix := line[..start];
      word := if StartsWithFold(line, "article") then "article" else if StartsWithFold(line, "section") then "section"
              else "clause";
      assert StartsWithFold(prefix, word);
      assert prefix[n..] == line[n..start];
    }
  }

  /** Only such spellings have a clause number: any numbered line is put together from these parts. */
  lemma {:induction false} NumberedLinesAreSpelled(line: string)
      returns (prefix: string, word: string, digits: seq<string>, punct: string, gap: string, title: string)
    requires ClauseNumber(line).Some?
    ensures IsPrefix(prefix, word) && Numerals(digits) && punct in {"", ".", ")"} && IsGap(gap)
    ensures title != "" && !IsSpace(title[0])
    ensures line == Line(prefix, digits, punct, gap, title) && ClauseNumber(line) == Some(NatsOf(digits))
    ensures prefix != "" || |digits| > 1 || punct != "" || IsUpperChar(title[0])
  {
    prefix, word := PrefixIsPrefix(line);
    var a := |prefix|;
    digits := ScannedIsSpelled(line, a);
    var end, e := ScanNumber(line, a).end, DigitsEnd(line, 0);
    if (prefix != "" || |digits| > 1) && BodyFollows(line, SkipPunct(line, end)) {
      punct, gap, title := TailIsTitle(line, prefix, digits, end, SkipPunct(line, end));
    } else {
      DigitsAt(line, 0);
      digits := [line[..e]];
      assert NatsOf(digits) == [NatOf(line[..e])];
      var p := if e < |line| && IsPunct(line[e]) && BodyFollows(line, e + 1) then e + 1 else e;
      punct, gap, title := TailIsTitle(line, prefix, digits, e, p);
    }
  }

  lemma {:induction false} StrsReadBack(parts: seq<nat>)
    ensures var digits := StrsOf(parts);
            NatsOf(digits) == parts && forall i :: 0 <= i < |digits| ==> AllDigits(digits[i])
  {
    var digits := StrsOf(parts);
    forall i | 0 <= i < |digits| ensures AllDigits(digits[i]) && NatOf(digits[i]) == parts[i] {
      StrOfIsDigits(parts[i]);
    }
  }

  lemma {:induction false} PlainLine(digits: seq<string>, title: string)
    ensures Line("", digits, "", " ", title) == JoinWith(".", digits) + " " + title
  {
  }

  /** The dotted reference of a numeric key, followed by a capitalized title, reads back as the key. */
  lemma {:induction false} RefReadsBack(parts: seq<nat>, title: string)
    requires parts != [] && title != "" && !IsSpace(title[0])
    ensures ClauseKey(ClauseRef(Some(Number(parts))).value + " " + title) == Some(Number(parts))
       <==> |parts| > 1 || IsUpperChar(title[0])
  {
    var digits := StrsOf(parts);
    StrsReadBack(parts);
    SpellingsNormalize("", "", digits, "", " ", title);
    PlainLine(digits, title);
  }

  // ----- References identify keys -----

  predicate HasLetter(s: string) {
    exists c <- s :: IsLowerChar(c)
  }

  /** What `ClauseKey` returns. */
  predicate Proper(key: Option<Key>) {
    match key
    case None => true
    case Some(Number(parts)) => parts != []
    case Some(Title(text)) => HasLetter(text)
  }

  lemma {:induction false} JoinKeepsLetters(sep: string, words: seq<string>)
    requires words != [] && (HasLetter(words[0]) || (|words| > 1 && HasLetter(JoinWith(sep, words[1..]))))
    ensures HasLetter(JoinWith(sep, words))
  {
    var joined := JoinWith(sep, words);
    if HasLetter(words[0]) {
      var j :| 0 <= j < |words[0]| && IsLowerChar(words[0][j]);
      assert joined[j] == words[0][j];
    } else {
      var rest := JoinWith(sep, words[1..]);
      var j :| 0 <= j < |rest| && IsLowerChar(rest[j]);
      assert joined[|words[0] + sep| + j] == rest[j];
    }
  }

  lemma {:induction false} WordsKeepLetters(s: string, i: nat, k: nat)
    requires i <= k < |s| && IsLowerChar(s[k])
    ensures HasLetter(JoinWith(" ", WordsFrom(s, i)))
    decreases |s| - i
  {
    var start := RunEnd(s, i);
    var e := WordEnd(s, start);
    RunEndIsFirst(s, i);
    assert start <= k;
    var words := WordsFrom(s, i);
    if k < e {
      assert s[k] == words[0][k - start];
    } else {
      WordsKeepLetters(s, e, k);
      assert words[1..] == WordsFrom(s, e) != [];
    }
    JoinKeepsLetters(" ", words);
  }

  lemma {:induction false} KeysAreProper(line: string)
    ensures Proper(ClauseKey(line))
  {
    var stripped := Strip(line);
    if ClauseNumber(line).None? && 0 < |stripped| <= MAX_HEADING_CHARS && IsUpper(stripped) {
      var k :| 0 <= k < |stripped| && IsUpperChar(stripped[k]);
      assert IsLowerChar(Lower(stripped)[k]);
      WordsKeepLetters(Lower(stripped), 0, k);
    }
  }

  lemma {:induction false} RefHasNoLetter(digits: seq<string>)
    requires forall i :: 0 <= i < |digits| ==> AllDigits(digits[i])
    ensures !HasLetter(JoinWith(".", digits))
  {
    if |digits| > 1 {
      RefHasNoLetter(digits[1..]);
      var rest := JoinWith(".", digits[1..]);
      var joined := JoinWith(".", digits);
      var n := |digits[0]|;
      assert joined == digits[0] + "." + rest;
      forall k | 0 <= k < |joined| ensures !IsLowerChar(joined[k]) {
        if k > n {
          assert rest[k - n - 1] in rest;
        }
      }
    }
  }

  /** Different keys have different references. */
  lemma {:induction false} RefIsInjective(a: Option<Key>, b: Option<Key>)
    requires Proper(a) && Proper(b) && ClauseRef(a) == ClauseRef(b)
    ensures a == b
  {
    match (a, b)
    case (Some(Number(p)), Some(Number(q))) =>
      RefReadsBack(p, "A");
      RefReadsBack(q, "A");
    case (Some(Number(p)), Some(Title(t))) =>
      NumberRefHasNoLetter(p);
    case (Some(Title(t)), Some(Number(p))) =>
      NumberRefHasNoLetter(p);
    case _ =>
  }

  lemma {:induction false} NumberRefHasNoLetter(parts: seq<nat>)
    ensures !HasLetter(ClauseRef(Some(Number(parts))).value)
  {
    StrsReadBack(parts);
    RefHasNoLetter(StrsOf(parts));
  }
}
