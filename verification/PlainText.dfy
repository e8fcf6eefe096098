/** Parsing of plain text (`parse_text` in app/services/parsing.py). */
module PlainText {
  import opened Wrappers
  import opened Text
  import opened Parsing
  import opened Paragraphs

  function LastNewline(t: string, lo: nat, hi: nat): (r: Option<nat>)
    requires lo <= hi <= |t|
    ensures r.Some? ==> lo <= r.value < hi
    decreases hi
  {
    if lo == hi then None
    else if t[hi - 1] == '\n' then Some(hi - 1)
    else LastNewline(t, lo, hi - 1)
  }

  lemma {:induction false} LastNewlineIsLast(t: string, lo: nat, hi: nat)
    requires lo <= hi <= |t|
    ensures var r := LastNewline(t, lo, hi);
            if r.Some? then t[r.value] == '\n' else forall k :: lo <= k < hi ==> t[k] != '\n'
    decreases hi
  {
    if lo < hi && t[hi - 1] != '\n' {
      LastNewlineIsLast(t, lo, hi - 1);
    }
  }

  /** Where a match of `\n\s*\n` that begins at `i` ends; the middle is greedy. */
  function MatchEnd(t: string, i: nat): (r: Option<nat>)
    requires i < |t|
    ensures r.Some? ==> i + 1 < r.value <= |t|
  {
    if t[i] != '\n' then None
    else
      match LastNewline(t, i + 1, RunEnd(t, i + 1))
      case None => None
      case Some(j) => Some(j + 1)
  }

  lemma {:induction false} MatchIsBlankLine(t: string, i: nat)
    requires i < |t|
    ensures var r := MatchEnd(t, i);
            if r.Some? then BlankLineAt(t, i, r.value - 1) else forall j: nat :: !BlankLineAt(t, i, j)
  {
    RunEndIsFirst(t, i + 1);
    LastNewlineIsLast(t, i + 1, RunEnd(t, i + 1));
  }

  /** `re.split(r"\n\s*\n", t)` from the current part start and scan position on. */
  function SplitFrom(t: string, from: nat, i: nat): seq<string>
    requires from <= i <= |t|
    decreases |t| - i
  {
    if i == |t| then [t[from..]]
    else
      match MatchEnd(t, i)
      case None => SplitFrom(t, from, i + 1)
      case Some(end) => [t[from..i]] + SplitFrom(t, end, end)
  }

  function KeptParts(parts: seq<string>): seq<Entry> {
    if parts == [] then []
    else
      var text := Strip(parts[0]);
      if text == [] then KeptParts(parts[1..]) else [Entry(Paragraph, text, None)] + KeptParts(parts[1..])
  }

  function EntriesOf(t: string): seq<Entry> {
    KeptParts(SplitFrom(t, 0, 0))
  }

  function ParseText(t: string): ParsedDocument {
    Built(EntriesOf(t))
  }

  // ----- What a plain-text entry looks like -----

  ghost predicate Firm(text: string) {
    text != [] && Stripped(text) && !HasBlankLine(text)
  }

  ghost predicate Solid(e: Entry) {
    Firm(e.text) && e.kind == Paragraph && e.page == None
  }

  lemma {:induction false} PartsAreSolid(t: string, from: nat, i: nat)
    requires from <= i <= |t|
    requires forall k, j: nat :: from <= k < i ==> !BlankLineAt(t, k, j)
    ensures forall p <- SplitFrom(t, from, i) :: !HasBlankLine(p)
    decreases |t| - i
  {
    if i < |t| {
      MatchIsBlankLine(t, i);
    }
    if i == |t| {
      SliceKeepsNoBlankLine(t, from, |t|);
      assert t[from..] == t[from..|t|];
    } else if MatchEnd(t, i).None? {
      PartsAreSolid(t, from, i + 1);
    } else {
      SliceKeepsNoBlankLine(t, from, i);
      PartsAreSolid(t, MatchEnd(t, i).value, MatchEnd(t, i).value);
    }
  }

  lemma {:induction false} KeptAreSolid(parts: seq<string>)
    requires forall p <- parts :: !HasBlankLine(p)
    ensures forall e <- KeptParts(parts) :: Solid(e)
  {
    if parts != [] {
      StripMeans(parts[0]);
      StripKeepsNoBlankLine(parts[0]);
      KeptAreSolid(parts[1..]);
    }
  }

  lemma {:induction false} EntriesAreSolid(t: string)
    ensures forall e <- EntriesOf(t) :: Solid(e)
  {
    PartsAreSolid(t, 0, 0);
    KeptAreSolid(SplitFrom(t, 0, 0));
  }

  /** The paragraph scanner of the differ finds exactly the blocks of any parsed plain text. */
  lemma {:induction false} ParsedTextScansBack(t: string)
    ensures ParagraphsOf(ParseText(t).text) == ParasOf(ParseText(t).blocks)
  {
    EntriesAreSolid(t);
    forall e <- EntriesOf(t) ensures !HasSeparator(e.text) {
      SeparatorIsBlankLine(e.text);
    }
    BuildThenScan(EntriesOf(t));
  }

  // ----- Parsing canonical text again changes nothing -----

  lemma {:induction false} NoMatchInside(doc: ParsedDocument, b: nat, i: nat)
    requires LaidOut(doc) && b < |doc.blocks|
    requires Firm(doc.blocks[b].text)
    requires doc.blocks[b].start <= i < doc.blocks[b].end
    ensures i < |doc.text|
    ensures MatchEnd(doc.text, i).None?
  {
    var block := doc.blocks[b];
    assert Joined(doc, b);
    MatchIsBlankLine(doc.text, i);
    if MatchEnd(doc.text, i).Some? {
      var j := MatchEnd(doc.text, i).value - 1;
      assert BlankLineAt(doc.text, i, j);
      assert doc.text[block.end - 1] == block.text[|block.text| - 1];
      assert j < block.end;
      forall k | i <= k <= j ensures doc.text[k] == block.text[k - block.start] {
      }
      assert forall k :: i - block.start < k < j - block.start ==> block.text[k] == doc.text[block.start + k];
      assert BlankLineAt(block.text, i - block.start, j - block.start);
    }
  }

  lemma {:induction false} MatchBetween(doc: ParsedDocument, b: nat)
    requires LaidOut(doc) && b + 1 < |doc.blocks|
    requires Firm(doc.blocks[b + 1].text)
    ensures doc.blocks[b].end < |doc.text|
    ensures MatchEnd(doc.text, doc.blocks[b].end) == Some(doc.blocks[b + 1].start)
  {
    assert Joined(doc, b) && Joined(doc, b + 1);
    var next := doc.blocks[b + 1];
    assert doc.text[next.start] == next.text[0];
    RunEndIsFirst(doc.text, doc.blocks[b].end + 1);
    assert RunEnd(doc.text, doc.blocks[b].end + 1) == next.start;
  }

  function TextsOf(blocks: seq<Block>): seq<string> {
    seq(|blocks|, i requires 0 <= i < |blocks| => blocks[i].text)
  }

  lemma {:induction false} TextsFrom(blocks: seq<Block>, b: nat)
    requires b < |blocks|
    ensures TextsOf(blocks[b..]) == [blocks[b].text] + TextsOf(blocks[b + 1..])
  {
  }

  lemma {:induction false} SplitCanonical(doc: ParsedDocument, b: nat, i: nat)
    requires LaidOut(doc) && b < |doc.blocks|
    requires forall k :: 0 <= k < |doc.blocks| ==> Firm(doc.blocks[k].text)
    requires doc.blocks[b].start <= i <= doc.blocks[b].end
    ensures i <= |doc.text|
    ensures SplitFrom(doc.text, doc.blocks[b].start, i) == TextsOf(doc.blocks[b..])
    decreases |doc.blocks| - b, doc.blocks[b].end - i
  {
    var block := doc.blocks[b];
    assert Joined(doc, b);
    if i < block.end {
      NoMatchInside(doc, b, i);
      SplitCanonical(doc, b, i + 1);
    } else if b + 1 < |doc.blocks| {
      MatchBetween(doc, b);
      assert Joined(doc, b + 1);
      TextsFrom(doc.blocks, b);
      SplitCanonical(doc, b + 1, doc.blocks[b + 1].start);
    } else {
      assert doc.text[block.start..] == block.text && doc.blocks[b..] == [block];
    }
  }

  lemma {:induction false} KeptOfCanonical(texts: seq<string>, entries: seq<Entry>)
    requires |texts| == |entries|
    requires forall i :: 0 <= i < |entries| ==> entries[i].text == texts[i] && Solid(entries[i])
    ensures KeptParts(texts) == entries
  {
    if texts != [] {
      StripMeans(texts[0]);
      KeptOfCanonical(texts[1..], entries[1..]);
      assert entries[0] == Entry(Paragraph, Strip(texts[0]), None);
    }
  }

  /** Any stripped paragraphs without blank lines are read back as they are from their canonical text. */
  lemma {:induction false} SolidEntriesReadBack(entries: seq<Entry>)
    requires forall e <- entries :: Solid(e)
    ensures EntriesOf(Built(entries).text) == entries
  {
    var doc := Built(entries);
    BuildLaysOut(entries);
    if entries != [] {
      forall i | 0 <= i < |entries| ensures doc.blocks[i].text == entries[i].text && Solid(entries[i]) {
        assert Carries(doc.blocks[i], entries[i]);
        assert entries[i] in entries;
      }
      assert Joined(doc, 0);
      SplitCanonical(doc, 0, 0);
      assert doc.blocks[0..] == doc.blocks;
      KeptOfCanonical(TextsOf(doc.blocks), entries);
    } else {
      assert doc.text == "" && SplitFrom("", 0, 0) == [""];
      assert Strip("") == "" && KeptParts([""]) == KeptParts([""][1..]);
    }
  }

  /** Parsing is idempotent on its own canonical text. */
  lemma {:induction false} ParseTextIdempotent(t: string)
    ensures ParseText(ParseText(t).text) == ParseText(t)
  {
    EntriesAreSolid(t);
    SolidEntriesReadBack(EntriesOf(t));
  }

  // ----- Parsing loses nothing -----

  /** The characters that are not whitespace, in order. */
  function Ink(s: string): string {
    if s == "" then ""
    else
      var n := |s| - 1;
      if IsSpace(s[n]) then Ink(s[..n]) else Ink(s[..n]) + [s[n]]
  }

  function InkOfParts(parts: seq<string>): string {
    if parts == [] then "" else Ink(parts[0]) + InkOfParts(parts[1..])
  }

  function InkOfEntries(entries: seq<Entry>): string {
    if entries == [] then "" else Ink(entries[0].text) + InkOfEntries(entries[1..])
  }

  lemma {:induction false} InkSplits(a: string, b: string)
    ensures Ink(a + b) == Ink(a) + Ink(b)
  {
    if b == "" {
      assert a + b == a;
    } else {
      var n := |b| - 1;
      InkSplits(a, b[..n]);
      assert (a + b)[..|a + b| - 1] == a + b[..n];
    }
  }

  lemma {:induction false} BlankHasNoInk(s: string)
    requires Blank(s)
    ensures Ink(s) == ""
  {
    if s != "" {
      BlankHasNoInk(s[..|s| - 1]);
    }
  }

  lemma {:induction false} InkAround(s: string, lo: nat, hi: nat)
    requires lo <= hi <= |s| && Blank(s[..lo]) && Blank(s[hi..])
    ensures Ink(s) == Ink(s[lo..hi])
  {
    InkSplits(s[..lo], s[lo..hi]);
    InkSplits(s[..hi], s[hi..]);
    BlankHasNoInk(s[..lo]);
    BlankHasNoInk(s[hi..]);
    assert s == s[..hi] + s[hi..] && s[..hi] == s[..lo] + s[lo..hi];
  }

  lemma {:induction false} StripKeepsInk(s: string)
    ensures Ink(Strip(s)) == Ink(s)
  {
    var lo := RunEnd(s, 0);
    RunEndIsFirst(s, 0);
    TrimEndIsLast(s, lo, |s|);
    InkAround(s, lo, TrimEnd(s, lo, |s|));
  }

  lemma {:induction false} MatchIsBlank(t: string, i: nat)
    requires i < |t| && MatchEnd(t, i).Some?
    ensures Blank(t[i..MatchEnd(t, i).value])
  {
    RunEndIsFirst(t, i + 1);
  }

  lemma {:induction false} InkOfJoin(a: string, gap: string, b: string)
    requires Blank(gap)
    ensures Ink(a + gap + b) == Ink(a) + Ink(b)
  {
    BlankHasNoInk(gap);
    InkSplits(a, gap);
    InkSplits(a + gap, b);
  }

  lemma {:induction false} InkAcross(t: string, from: nat, i: nat, end: nat)
    requires from <= i <= end <= |t| && Blank(t[i..end])
    ensures Ink(t[from..]) == Ink(t[from..i]) + Ink(t[end..])
  {
    InkOfJoin(t[from..i], t[i..end], t[end..]);
    assert t[from..] == t[from..i] + t[i..end] + t[end..];
  }

  lemma {:induction false} InkOfMore(part: string, rest: seq<string>)
    ensures InkOfParts([part] + rest) == Ink(part) + InkOfParts(rest)
  {
    assert ([part] + rest)[1..] == rest;
  }

  lemma {:induction false} PartsKeepInk(t: string, from: nat, i: nat)
    requires from <= i <= |t|
    ensures InkOfParts(SplitFrom(t, from, i)) == Ink(t[from..])
    decreases |t| - i
  {
    if i == |t| {
      InkOfMore(t[from..], []);
      assert [t[from..]] + [] == [t[from..]];
    } else if MatchEnd(t, i).None? {
      PartsKeepInk(t, from, i + 1);
    } else {
      var end := MatchEnd(t, i).value;
      PartsKeepInk(t, end, end);
      MatchIsBlank(t, i);
      InkAcross(t, from, i, end);
      InkOfMore(t[from..i], SplitFrom(t, end, end));
    }
  }

  lemma {:induction false} KeptPartsKeepInk(parts: seq<string>)
    ensures InkOfEntries(KeptParts(parts)) == InkOfParts(parts)
  {
    if parts != [] {
      StripKeepsInk(parts[0]);
      KeptPartsKeepInk(parts[1..]);
      var text := Strip(parts[0]);
      if text != [] {
        assert KeptParts(parts)[1..] == KeptParts(parts[1..]);
      }
    }
  }

  /** The blocks together hold every character of the input that is not whitespace, in order, and no other. */
  lemma {:induction false} ParsingKeepsInk(t: string)
    ensures InkOfEntries(EntriesOf(t)) == Ink(t)
  {
    PartsKeepInk(t, 0, 0);
    KeptPartsKeepInk(SplitFrom(t, 0, 0));
    assert t[0..] == t;
  }

  // ----- Parsing splits at blank lines and nowhere else -----

  /** The first blank line begins at `i`, and `j` is the last newline of the whitespace there. */
  ghost predicate FirstBlankLine(t: string, i: nat, j: nat) {
    && BlankLineAt(t, i, j)
    && (forall k: nat, l: nat :: k < i ==> !BlankLineAt(t, k, l))
    && (forall l: nat :: j < l ==> !BlankLineAt(t, i, l))
  }

  lemma {:induction false} NoSplitBefore(t: string, from: nat, i: nat, stop: nat)
    requires from <= i <= stop <= |t| && forall k: nat, l: nat :: i <= k < stop ==> !BlankLineAt(t, k, l)
    ensures SplitFrom(t, from, i) == SplitFrom(t, from, stop)
    decreases stop - i
  {
    if i < stop {
      MatchIsBlankLine(t, i);
      NoSplitBefore(t, from, i + 1, stop);
    }
  }

  lemma {:induction false} WholeIsOnePart(t: string)
    requires !HasBlankLine(t)
    ensures SplitFrom(t, 0, 0) == [t]
  {
    NoSplitBefore(t, 0, 0, |t|);
    assert t[0..] == t;
  }

  /** Without a blank line there is at most one block, the stripped text. */
  lemma {:induction false} OneParagraphIsOneBlock(t: string)
    requires !HasBlankLine(t)
    ensures EntriesOf(t) == if Blank(t) then [] else [Entry(Paragraph, Strip(t), None)]
  {
    WholeIsOnePart(t);
    StripMeans(t);
    assert [t][1..] == [] && KeptParts([]) == [];
  }

  lemma {:induction false} MatchIsLongest(t: string, i: nat, j: nat)
    requires BlankLineAt(t, i, j) && forall l: nat :: j < l ==> !BlankLineAt(t, i, l)
    ensures MatchEnd(t, i) == Some(j + 1)
  {
    MatchIsBlankLine(t, i);
    RunEndIsFirst(t, i + 1);
    var end := RunEnd(t, i + 1);
    LastNewlineFrom(t, i + 1, end, j);
    if MatchEnd(t, i).Some? {
      assert BlankLineAt(t, i, MatchEnd(t, i).value - 1);
    }
  }

  lemma {:induction false} LastNewlineFrom(t: string, lo: nat, hi: nat, j: nat)
    requires lo <= hi <= |t|
    ensures lo <= j < hi && t[j] == '\n' ==> LastNewline(t, lo, hi).Some? && j <= LastNewline(t, lo, hi).value
    decreases hi
  {
    if lo < hi && t[hi - 1] != '\n' {
      LastNewlineFrom(t, lo, hi - 1, j);
    }
  }

  lemma {:induction false} RunEndShifts(t: string, d: nat, i: nat)
    requires d <= i <= |t|
    ensures RunEnd(t, i) == d + RunEnd(t[d..], i - d)
    decreases |t| - i
  {
    if i < |t| {
      assert t[d..][i - d] == t[i];
      if IsSpace(t[i]) {
        RunEndShifts(t, d, i + 1);
      }
    }
  }

  lemma {:induction false} LastNewlineShifts(t: string, d: nat, lo: nat, hi: nat)
    requires d <= lo <= hi <= |t|
    ensures var r, s := LastNewline(t, lo, hi), LastNewline(t[d..], lo - d, hi - d);
            r == if s.Some? then Some(d + s.value) else None
    decreases hi
  {
    if lo < hi {
      assert t[d..][hi - 1 - d] == t[hi - 1];
      if t[hi - 1] != '\n' {
        LastNewlineShifts(t, d, lo, hi - 1);
      }
    }
  }

  lemma {:induction false} MatchShifts(t: string, d: nat, i: nat)
    requires d <= i < |t|
    ensures var r, s := MatchEnd(t, i), MatchEnd(t[d..], i - d); r == if s.Some? then Some(d + s.value) else None
  {
    assert t[d..][i - d] == t[i];
    RunEndShifts(t, d, i + 1);
    LastNewlineShifts(t, d, i + 1, RunEnd(t, i + 1));
  }

  lemma {:induction false} SlicesShift(t: string, u: string, d: nat, from: nat, i: nat)
    requires d <= from <= i <= |t| && u == t[d..]
    ensures u[from - d..] == t[from..] && u[from - d..i - d] == t[from..i]
  {
  }

  lemma {:induction false} PartGoesOn(t: string, u: string, d: nat, from: nat, i: nat)
    requires d <= from <= i < |t| && u == t[d..] && MatchEnd(t, i).None?
    requires SplitFrom(t, from, i + 1) == SplitFrom(u, from - d, i - d + 1)
    ensures SplitFrom(t, from, i) == SplitFrom(u, from - d, i - d)
  {
    MatchShifts(t, d, i);
  }

  lemma {:induction false} PartEnds(t: string, u: string, d: nat, from: nat, i: nat, end: nat)
    requires d <= from <= i < end <= |t| && u == t[d..] && MatchEnd(t, i) == Some(end)
    requires SplitFrom(t, end, end) == SplitFrom(u, end - d, end - d)
    ensures SplitFrom(t, from, i) == SplitFrom(u, from - d, i - d)
  {
    MatchShifts(t, d, i);
    SlicesShift(t, u, d, from, i);
    assert MatchEnd(u, i - d) == Some(end - d);
  }

  lemma {:induction false} SplitShifts(t: string, u: string, d: nat, from: nat, i: nat)
    requires d <= from <= i <= |t| && u == t[d..]
    ensures SplitFrom(t, from, i) == SplitFrom(u, from - d, i - d)
    decreases |t| - i
  {
    if i == |t| {
      SlicesShift(t, u, d, from, i);
    } else if MatchEnd(t, i).None? {
      SplitShifts(t, u, d, from, i + 1);
      PartGoesOn(t, u, d, from, i);
    } else {
      SplitShifts(t, u, d, MatchEnd(t, i).value, MatchEnd(t, i).value);
      PartEnds(t, u, d, from, i, MatchEnd(t, i).value);
    }
  }

  lemma {:induction false} KeptOfMore(part: string, rest: seq<string>)
    ensures KeptParts([part] + rest) == KeptParts([part]) + KeptParts(rest)
  {
    assert ([part] + rest)[1..] == rest && [part][1..] == [];
  }

  /** A text is parsed by parsing what stands before its first blank line and what stands after it. */
  lemma {:induction false} BlankLineSplitsText(t: string, i: nat, j: nat)
    requires FirstBlankLine(t, i, j)
    ensures EntriesOf(t) == EntriesOf(t[..i]) + EntriesOf(t[j + 1..])
  {
    var head, tail := t[..i], t[j + 1..];
    NoSplitBefore(t, 0, 0, i);
    MatchIsLongest(t, i, j);
    SplitShifts(t, tail, j + 1, j + 1, j + 1);
    assert t[0..i] == head;
    SliceKeepsNoBlankLine(t, 0, i);
    WholeIsOnePart(head);
    KeptOfMore(head, SplitFrom(tail, 0, 0));
  }
}
