/** The paragraph scanner of the differ (app/services/diffing.py) undoes the canonical join of the parser. */
module Paragraphs {
  import opened Wrappers
  import opened Text
  import opened Parsing

  datatype Para = Para(start: nat, end: nat, text: string)

  /** `text.find("\n\n", pos)`. */
  function FindSeparator(text: string, pos: nat): (r: Option<nat>)
    requires pos <= |text|
    ensures r.Some? ==> pos <= r.value < |text|
    decreases |text| - pos
  {
    if pos == |text| then None
    else if SeparatorAt(text, pos) then Some(pos)
    else FindSeparator(text, pos + 1)
  }

  lemma {:induction false} FindSeparatorFirst(text: string, pos: nat)
    requires pos <= |text|
    ensures var r := FindSeparator(text, pos);
            && (r.Some? ==> SeparatorAt(text, r.value))
            && forall k :: pos <= k < (if r.Some? then r.value else |text|) ==> !SeparatorAt(text, k)
    decreases |text| - pos
  {
    if pos < |text| && !SeparatorAt(text, pos) {
      FindSeparatorFirst(text, pos + 1);
    }
  }

  function ParagraphEnd(text: string, pos: nat): (end: nat)
    requires pos <= |text|
    ensures pos <= end <= |text|
  {
    var separator := FindSeparator(text, pos);
    if separator.None? then |text| else separator.value
  }

  /** The non-blank paragraphs from `pos` on. */
  function ParagraphsFrom(text: string, pos: nat): seq<Para>
    decreases |text| - pos
  {
    if pos >= |text| then []
    else
      var end := ParagraphEnd(text, pos);
      var rest := ParagraphsFrom(text, end + 2);
      if Blank(text[pos..end]) then rest else [Para(pos, end, text[pos..end])] + rest
  }

  function ParagraphsOf(text: string): seq<Para> {
    ParagraphsFrom(text, 0)
  }

  method ScanParagraphs(text: string) returns (paragraphs: seq<Para>)
    ensures paragraphs == ParagraphsOf(text)
  {
    paragraphs := [];
    var pos := 0;
    ghost var all := ParagraphsOf(text);
    assert paragraphs + ParagraphsFrom(text, 0) == all;
    while pos < |text|
      invariant paragraphs + ParagraphsFrom(text, pos) == all
      decreases |text| - pos
    {
      var separator := FindSeparator(text, pos);
      var end := if separator.None? then |text| else separator.value;
      if !Blank(text[pos..end]) {
        paragraphs := paragraphs + [Para(pos, end, text[pos..end])];
      }
      pos := end + 2;
    }
  }

  /** A paragraph is a non-blank slice of the text without a blank line at a line break. */
  ghost predicate WellCut(text: string, p: Para) {
    && p.start < p.end <= |text|
    && p.text == text[p.start..p.end]
    && !Blank(p.text)
    && !HasSeparator(p.text)
  }

  /** Ordered, disjoint, well-cut paragraphs at or after `from`. */
  ghost predicate CutsFrom(text: string, ps: seq<Para>, from: nat) {
    && (forall i :: 0 <= i < |ps| ==> WellCut(text, ps[i]) && from <= ps[i].start)
    && (forall i, j :: 0 <= i < j < |ps| ==> ps[i].end < ps[j].start)
  }

  lemma {:induction false} ParagraphIsCut(text: string, pos: nat)
    requires pos < |text|
    ensures var end := ParagraphEnd(text, pos);
            !Blank(text[pos..end]) ==> WellCut(text, Para(pos, end, text[pos..end]))
  {
    FindSeparatorFirst(text, pos);
    var end := ParagraphEnd(text, pos);
    var slice := text[pos..end];
    if k: nat :| SeparatorAt(slice, k) {
      assert SeparatorAt(text, pos + k);
    }
  }

  lemma {:induction false} ParagraphsAreCuts(text: string, pos: nat)
    ensures CutsFrom(text, ParagraphsFrom(text, pos), pos)
    decreases |text| - pos
  {
    if pos < |text| {
      var end := ParagraphEnd(text, pos);
      ParagraphIsCut(text, pos);
      ParagraphsAreCuts(text, end + 2);
    }
  }

  ghost predicate InSomePara(ps: seq<Para>, i: nat) {
    exists p <- ps :: p.start <= i < p.end
  }

  lemma {:induction false} FirstParagraphHolds(text: string, pos: nat, i: nat)
    requires pos <= |text| && pos <= i < ParagraphEnd(text, pos) && !IsSpace(text[i])
    ensures InSomePara(ParagraphsFrom(text, pos), i)
  {
    var end := ParagraphEnd(text, pos);
    assert text[pos..end][i - pos] == text[i];
    assert Para(pos, end, text[pos..end]) in ParagraphsFrom(text, pos);
  }

  lemma {:induction false} LaterParagraphHolds(text: string, pos: nat, i: nat)
    requires pos < |text| && InSomePara(ParagraphsFrom(text, ParagraphEnd(text, pos) + 2), i)
    ensures InSomePara(ParagraphsFrom(text, pos), i)
  {
    var rest := ParagraphsFrom(text, ParagraphEnd(text, pos) + 2);
    var p :| p in rest && p.start <= i < p.end;
    assert p in ParagraphsFrom(text, pos);
  }

  /** Nothing but whitespace, separators included, lies outside the paragraphs. */
  lemma {:induction false} ParagraphsMissOnlyBlanks(text: string, pos: nat, i: nat)
    requires pos <= i < |text| && !IsSpace(text[i])
    ensures InSomePara(ParagraphsFrom(text, pos), i)
    decreases |text| - pos
  {
    var end := ParagraphEnd(text, pos);
    FindSeparatorFirst(text, pos);
    if i < end {
      FirstParagraphHolds(text, pos, i);
    } else {
      assert SeparatorAt(text, end);
      ParagraphsMissOnlyBlanks(text, end + 2, i);
      LaterParagraphHolds(text, pos, i);
    }
  }

  // ----- Round trip with the parser -----

  function ParaOf(b: Block): Para {
    Para(b.start, b.end, b.text)
  }

  function ParasOf(blocks: seq<Block>): seq<Para> {
    seq(|blocks|, i requires 0 <= i < |blocks| => ParaOf(blocks[i]))
  }

  /** What every parser guarantees of an entry. */
  ghost predicate Clean(e: Entry) {
    e.text != [] && Stripped(e.text)
  }

  lemma {:induction false} BlockEndsParagraph(doc: ParsedDocument, i: nat)
    requires LaidOut(doc) && i < |doc.blocks|
    requires var t := doc.blocks[i].text; t != [] && Stripped(t) && !HasSeparator(t)
    ensures doc.blocks[i].start < doc.blocks[i].end <= |doc.text|
    ensures doc.blocks[i].end == ParagraphEnd(doc.text, doc.blocks[i].start)
  {
    var b := doc.blocks[i];
    assert Joined(doc, i);
    FindSeparatorFirst(doc.text, b.start);
    forall k | b.start <= k < b.end ensures !SeparatorAt(doc.text, k) {
      assert doc.text[k] == b.text[k - b.start];
      if k + 1 < b.end && SeparatorAt(doc.text, k) {
        assert doc.text[k + 1] == b.text[k + 1 - b.start];
        assert SeparatorAt(b.text, k - b.start);
      }
    }
    if i + 1 < |doc.blocks| {
      assert Joined(doc, i + 1);
    }
  }

  lemma {:induction false} CleanBlocksScanBack(doc: ParsedDocument, i: nat)
    requires LaidOut(doc) && i < |doc.blocks|
    requires forall k :: 0 <= k < |doc.blocks| ==>
               var t := doc.blocks[k].text; t != [] && Stripped(t) && !HasSeparator(t)
    ensures ParagraphsFrom(doc.text, doc.blocks[i].start) == ParasOf(doc.blocks[i..])
    decreases |doc.blocks| - i
  {
    var b := doc.blocks[i];
    assert Joined(doc, i);
    BlockEndsParagraph(doc, i);
    assert !Blank(b.text);
    assert ParasOf(doc.blocks[i..]) == [ParaOf(b)] + ParasOf(doc.blocks[i + 1..]);
    if i + 1 < |doc.blocks| {
      assert Joined(doc, i + 1);
      CleanBlocksScanBack(doc, i + 1);
    }
  }

  lemma {:induction false} SeparatorFreeScansBack(entries: seq<Entry>)
    requires forall e <- entries :: Clean(e) && !HasSeparator(e.text)
    ensures ParagraphsOf(Built(entries).text) == ParasOf(Built(entries).blocks)
  {
    var doc := Built(entries);
    BuildLaysOut(entries);
    forall k | 0 <= k < |doc.blocks|
      ensures var t := doc.blocks[k].text; t != [] && Stripped(t) && !HasSeparator(t)
    {
      assert Carries(doc.blocks[k], entries[k]);
      assert entries[k] in entries;
    }
    if entries != [] {
      assert Joined(doc, 0);
      CleanBlocksScanBack(doc, 0);
    }
  }

  lemma {:induction false} ScannedBackIsSeparatorFree(entries: seq<Entry>, i: nat)
    requires ParagraphsOf(Built(entries).text) == ParasOf(Built(entries).blocks)
    requires i < |entries|
    ensures !HasSeparator(entries[i].text)
  {
    var doc := Built(entries);
    BuildLaysOut(entries);
    ParagraphsAreCuts(doc.text, 0);
    assert Carries(doc.blocks[i], entries[i]);
    assert WellCut(doc.text, ParagraphsOf(doc.text)[i]);
    assert ParasOf(doc.blocks)[i] == ParaOf(doc.blocks[i]);
  }

  /** Scanning the canonical text gives back exactly the blocks, if and only if no entry holds a blank separator. */
  lemma {:induction false} BuildThenScan(entries: seq<Entry>)
    requires forall e <- entries :: Clean(e)
    ensures ParagraphsOf(Built(entries).text) == ParasOf(Built(entries).blocks)
       <==> forall e <- entries :: !HasSeparator(e.text)
  {
    if forall e <- entries :: !HasSeparator(e.text) {
      SeparatorFreeScansBack(entries);
    } else if ParagraphsOf(Built(entries).text) == ParasOf(Built(entries).blocks) {
      var i :| 0 <= i < |entries| && HasSeparator(entries[i].text);
      ScannedBackIsSeparatorFree(entries, i);
    }
  }

  /** A DOCX paragraph may hold a blank line; scanning the built text then finds two paragraphs in the one block. */
  lemma {:induction false} BlankLineSplitsBlock()
    ensures var entries := [Entry(Paragraph, "a\n\nb", None)];
            && (forall e <- entries :: Clean(e))
            && ParagraphsOf(Built(entries).text) != ParasOf(Built(entries).blocks)
  {
    var entry := Entry(Paragraph, "a\n\nb", None);
    assert SeparatorAt(entry.text, 1);
    assert entry in [entry];
    BuildThenScan([entry]);
  }
}
