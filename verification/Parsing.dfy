/** Canonical text, block offsets and page map (app/services/parsing.py). */
module Parsing {
  import opened Wrappers
  import opened Text

  datatype BlockKind = Heading | Paragraph

  /** What a format-specific parser hands to `Build`. */
  datatype Entry = Entry(kind: BlockKind, text: string, page: Option<int>)

  datatype Block = Block(kind: BlockKind, text: string, start: nat, end: nat, page: Option<int>)

  datatype PageSpan = PageSpan(page: int, start: nat, end: nat)

  datatype ParsedDocument = ParsedDocument(text: string, blocks: seq<Block>, pageMap: seq<PageSpan>)

  const SEPARATOR := "\n\n"

  // ----- Building the canonical document -----

  function NextStart(doc: ParsedDocument): nat {
    if doc.blocks == [] then 0 else |doc.text| + 2
  }

  function CloseLast(pages: seq<PageSpan>, end: nat): seq<PageSpan> {
    if pages == [] then []
    else
      var last := pages[|pages| - 1];
      pages[..|pages| - 1] + [PageSpan(last.page, last.start, end)]
  }

  predicate OpensPage(pages: seq<PageSpan>, page: Option<int>) {
    page.Some? && (pages == [] || pages[|pages| - 1].page != page.value)
  }

  function AddPage(pages: seq<PageSpan>, page: Option<int>, start: nat, end: nat): seq<PageSpan> {
    if OpensPage(pages, page) then CloseLast(pages, start) + [PageSpan(page.value, start, end)]
    else CloseLast(pages, end)
  }

  /** The document with one more entry joined on. */
  function Add(doc: ParsedDocument, e: Entry): ParsedDocument {
    var start := NextStart(doc);
    var end := start + |e.text|;
    ParsedDocument(
      (if doc.blocks == [] then doc.text else doc.text + SEPARATOR) + e.text,
      doc.blocks + [Block(e.kind, e.text, start, end, e.page)],
      AddPage(doc.pageMap, e.page, start, end))
  }

  function Built(entries: seq<Entry>): ParsedDocument {
    if entries == [] then ParsedDocument("", [], [])
    else Add(Built(entries[..|entries| - 1]), entries[|entries| - 1])
  }

  /** `"".join(parts)`. */
  function Concat(parts: seq<string>): string {
    if parts == [] then "" else Concat(parts[..|parts| - 1]) + parts[|parts| - 1]
  }

  lemma {:induction false} ConcatAppend(parts: seq<string>, part: string)
    ensures Concat(parts + [part]) == Concat(parts) + part
  {
    assert (parts + [part])[..|parts|] == parts;
  }

  lemma {:induction false} OpenPageStep(pages: seq<PageSpan>, page: Option<int>, was: nat, start: nat, end: nat)
    ensures var grown := if OpensPage(pages, page) then CloseLast(pages, start) + [PageSpan(page.value, start, 0)]
                         else pages;
            CloseLast(grown, end) == AddPage(CloseLast(pages, was), page, start, end)
  {
  }

  /** The parts, blocks and open pages collected so far stand for the document. */
  ghost predicate Collected(
      doc: ParsedDocument, parts: seq<string>, blocks: seq<Block>, pageMap: seq<PageSpan>, pos: nat) {
    && doc == ParsedDocument(Concat(parts), blocks, CloseLast(pageMap, pos))
    && pos == |doc.text| && (parts == [] <==> blocks == [])
  }

  function Separated(parts: seq<string>): seq<string> {
    if parts == [] then parts else parts + [SEPARATOR]
  }

  lemma {:induction false} CollectOneMore(
      doc: ParsedDocument, parts: seq<string>, blocks: seq<Block>, pageMap: seq<PageSpan>, pos: nat, e: Entry)
    requires Collected(doc, parts, blocks, pageMap, pos)
    ensures var start := if parts == [] then pos else pos + 2;
            var end := start + |e.text|;
            Collected(
              Add(doc, e), Separated(parts) + [e.text], blocks + [Block(e.kind, e.text, start, end, e.page)],
              if OpensPage(pageMap, e.page) then CloseLast(pageMap, start) + [PageSpan(e.page.value, start, 0)]
              else pageMap,
              end)
  {
    var start := if parts == [] then pos else pos + 2;
    ConcatAppend(parts, SEPARATOR);
    ConcatAppend(Separated(parts), e.text);
    OpenPageStep(pageMap, e.page, pos, start, start + |e.text|);
  }

  lemma {:induction false} BuiltOneMore(entries: seq<Entry>, i: nat)
    requires i < |entries|
    ensures Built(entries[..i + 1]) == Add(Built(entries[..i]), entries[i])
  {
    assert entries[..i + 1][..i] == entries[..i];
  }

  /** One pass over the entries; an open page span carries a placeholder end until it is closed. */
  method Build(entries: seq<Entry>) returns (doc: ParsedDocument)
    ensures doc == Built(entries)
  {
    var parts: seq<string> := [];
    var blocks: seq<Block> := [];
    var pageMap: seq<PageSpan> := [];
    var pos: nat := 0;
    for i := 0 to |entries|
      invariant Collected(Built(entries[..i]), parts, blocks, pageMap, pos)
    {
      var e := entries[i];
      BuiltOneMore(entries, i);
      CollectOneMore(Built(entries[..i]), parts, blocks, pageMap, pos, e);
      if parts != [] {
        parts := parts + [SEPARATOR];
        pos := pos + 2;
      }
      var start := pos;
      pos := pos + |e.text|;
      parts := parts + [e.text];
      blocks := blocks + [Block(e.kind, e.text, start, pos, e.page)];
      if OpensPage(pageMap, e.page) {
        pageMap := CloseLast(pageMap, start) + [PageSpan(e.page.value, start, 0)];
      }
    }
    assert entries[..|entries|] == entries;
    doc := ParsedDocument(Concat(parts), blocks, CloseLast(pageMap, pos));
  }

  // ----- Layout: blocks are exact slices, separated by exactly one blank line -----

  /** Block `i` is an exact slice that begins the text or follows the previous block's separator. */
  ghost predicate Joined(doc: ParsedDocument, i: nat)
    requires i < |doc.blocks|
  {
    var b := doc.blocks[i];
    && b.start + |b.text| == b.end <= |doc.text|
    && doc.text[b.start..b.end] == b.text
    && if i == 0 then b.start == 0
       else b.start == doc.blocks[i - 1].end + 2 && SeparatorAt(doc.text, doc.blocks[i - 1].end)
  }

  ghost predicate LaidOut(doc: ParsedDocument) {
    && (forall i :: 0 <= i < |doc.blocks| ==> Joined(doc, i))
    && |doc.text| == if doc.blocks == [] then 0 else doc.blocks[|doc.blocks| - 1].end
  }

  lemma {:induction false} JoinedInLonger(doc: ParsedDocument, longer: ParsedDocument, i: nat)
    requires i < |doc.blocks| && Joined(doc, i)
    requires doc.text <= longer.text && doc.blocks <= longer.blocks
    ensures Joined(longer, i)
  {
    var b := doc.blocks[i];
    assert longer.text[b.start..b.end] == doc.text[b.start..b.end];
  }

  lemma {:induction false} AddLaysOut(doc: ParsedDocument, e: Entry)
    requires LaidOut(doc)
    ensures LaidOut(Add(doc, e))
  {
    var longer, n := Add(doc, e), |doc.blocks|;
    forall i | 0 <= i < n ensures Joined(longer, i) {
      JoinedInLonger(doc, longer, i);
    }
    assert Joined(longer, n);
  }

  ghost predicate Carries(b: Block, e: Entry) {
    b.kind == e.kind && b.text == e.text && b.page == e.page
  }

  lemma {:induction false} BuildLaysOut(entries: seq<Entry>)
    ensures LaidOut(Built(entries))
    ensures |Built(entries).blocks| == |entries|
    ensures forall i :: 0 <= i < |entries| ==> Carries(Built(entries).blocks[i], entries[i])
  {
    if entries != [] {
      var init := entries[..|entries| - 1];
      BuildLaysOut(init);
      AddLaysOut(Built(init), entries[|entries| - 1]);
    }
  }

  lemma {:induction false} BlockOrder(doc: ParsedDocument, i: nat, j: nat)
    requires LaidOut(doc) && i <= j < |doc.blocks|
    ensures i < j ==> doc.blocks[i].end + 2 <= doc.blocks[j].start
    ensures doc.blocks[j].end <= |doc.text|
    decreases j
  {
    assert Joined(doc, j);
    if i < j {
      BlockOrder(doc, i, j - 1);
      assert Joined(doc, j - 1);
    }
  }

  // ----- Page map -----

  ghost predicate PagesAscend(entries: seq<Entry>) {
    && (forall i :: 0 <= i < |entries| ==> entries[i].page.Some?)
    && (forall i, j :: 0 <= i < j < |entries| ==> entries[i].page.value <= entries[j].page.value)
  }

  /** Span `k` starts where span `k - 1` of an earlier page ends. */
  predicate PageJoined(pages: seq<PageSpan>, k: nat)
    requires k < |pages|
  {
    && pages[k].start <= pages[k].end
    && if k == 0 then pages[k].start == 0
       else pages[k].start == pages[k - 1].end && pages[k - 1].page < pages[k].page
  }

  ghost predicate Partition(pages: seq<PageSpan>, length: nat) {
    && pages != []
    && (forall k :: 0 <= k < |pages| ==> PageJoined(pages, k))
    && pages[|pages| - 1].end == length
  }

  predicate OnPage(b: Block, span: PageSpan) {
    b.page == Some(span.page) && span.start <= b.start && b.end <= span.end
  }

  ghost predicate OnSomePage(b: Block, pages: seq<PageSpan>) {
    exists k :: 0 <= k < |pages| && OnPage(b, pages[k])
  }

  lemma {:induction false} AddPagePartitions(pages: seq<PageSpan>, length: nat, page: int, start: nat, end: nat)
    requires Partition(pages, length) && length <= start <= end
    requires pages[|pages| - 1].page <= page
    ensures Partition(AddPage(pages, Some(page), start, end), end)
    ensures forall b :: OnSomePage(b, pages) ==> OnSomePage(b, AddPage(pages, Some(page), start, end))
  {
    var more := AddPage(pages, Some(page), start, end);
    assert PageJoined(pages, |pages| - 1);
    forall k | 0 <= k < |more| ensures PageJoined(more, k) {
      assert k < |pages| ==> PageJoined(pages, k);
    }
    forall b | OnSomePage(b, pages) ensures OnSomePage(b, more) {
      var k :| 0 <= k < |pages| && OnPage(b, pages[k]);
      assert OnPage(b, more[k]);
    }
  }

  /**
   * Contiguous spans in strictly increasing page order cover the text exactly, and every block lies on its own page.
   */
  ghost predicate Paged(doc: ParsedDocument, last: int) {
    && Partition(doc.pageMap, |doc.text|)
    && doc.pageMap[|doc.pageMap| - 1].page == last
    && forall b <- doc.blocks :: OnSomePage(b, doc.pageMap)
  }

  lemma {:induction false} FirstPaged(e: Entry)
    requires e.page.Some?
    ensures Paged(Add(ParsedDocument("", [], []), e), e.page.value)
  {
    var doc := Add(ParsedDocument("", [], []), e);
    assert PageJoined(doc.pageMap, 0);
    assert OnPage(doc.blocks[0], doc.pageMap[0]);
  }

  lemma {:induction false} AddPaged(doc: ParsedDocument, last: int, e: Entry)
    requires Paged(doc, last) && doc.blocks != []
    requires e.page.Some? && last <= e.page.value
    ensures Paged(Add(doc, e), e.page.value)
  {
    var longer := Add(doc, e);
    var pages, b := longer.pageMap, longer.blocks[|doc.blocks|];
    AddPagePartitions(doc.pageMap, |doc.text|, e.page.value, NextStart(doc), |longer.text|);
    assert PageJoined(doc.pageMap, |doc.pageMap| - 1);
    assert OnPage(b, pages[|pages| - 1]);
  }

  lemma {:induction false} PageMapPartitions(entries: seq<Entry>)
    requires entries != [] && PagesAscend(entries)
    ensures Paged(Built(entries), entries[|entries| - 1].page.value)
  {
    var n := |entries| - 1;
    if n == 0 {
      assert Built(entries[..0]) == ParsedDocument("", [], []);
      FirstPaged(entries[0]);
    } else {
      var init := entries[..n];
      PageMapPartitions(init);
      BuildLaysOut(init);
      assert init[n - 1] == entries[n - 1];
      AddPaged(Built(init), entries[n - 1].page.value, entries[n]);
    }
  }
}
