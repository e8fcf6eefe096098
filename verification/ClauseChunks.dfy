/** Chunks of a whole document: one range per clause, each cut into windows (app/services/chunking.py). */
module ClauseChunks {
  import opened Wrappers
  import opened Text
  import opened Parsing
  import opened Chunking

  // ----- Clause spans -----

  /** The scanner's variables: the finished spans and the open one. */
  datatype Scan = Scan(spans: seq<Span>, start: Option<nat>, end: nat)

  function Close(s: Scan): seq<Span> {
    if s.start.Some? then s.spans + [Span(s.start.value, s.end)] else s.spans
  }

  function ScanBlock(s: Scan, b: Block): Scan {
    if s.start.None? then Scan(s.spans, Some(b.start), b.end)
    else if b.kind == Heading then Scan(Close(s), Some(b.start), b.end)
    else s.(end := b.end)
  }

  function ScanBlocks(blocks: seq<Block>): Scan {
    if blocks == [] then Scan([], None, 0)
    else ScanBlock(ScanBlocks(blocks[..|blocks| - 1]), blocks[|blocks| - 1])
  }

  function ClauseSpans(blocks: seq<Block>): seq<Span> {
    Close(ScanBlocks(blocks))
  }

  method FindClauses(blocks: seq<Block>) returns (spans: seq<Span>)
    ensures spans == ClauseSpans(blocks)
  {
    spans := [];
    var start: Option<nat> := None;
    var end := 0;
    for i := 0 to |blocks|
      invariant Scan(spans, start, end) == ScanBlocks(blocks[..i])
    {
      var b := blocks[i];
      assert blocks[..i + 1][..i] == blocks[..i];
      if b.kind == Heading && start.Some? {
        spans := spans + [Span(start.value, end)];
        start := None;
      }
      if start.None? {
        start := Some(b.start);
      }
      end := b.end;
    }
    assert blocks[..|blocks|] == blocks;
    if start.Some? {
      spans := spans + [Span(start.value, end)];
    }
  }

  /** Every clause lies within the text its blocks lie within. */
  lemma {:induction false} ClausesWithin(blocks: seq<Block>, limit: nat)
    requires forall b <- blocks :: b.end <= limit
    ensures forall s <- ScanBlocks(blocks).spans :: s.end <= limit
    ensures ScanBlocks(blocks).end <= limit
  {
    if blocks != [] {
      ClausesWithin(blocks[..|blocks| - 1], limit);
    }
  }

  // ----- Chunks -----

  ghost predicate BlocksWithin(doc: ParsedDocument) {
    forall b <- doc.blocks :: b.end <= |doc.text|
  }

  function MakeChunks(text: string, windows: seq<Span>): (chunks: seq<Chunk>)
    requires forall w <- windows :: w.start <= w.end <= |text|
    ensures |chunks| == |windows|
  {
    seq(|windows|, i requires 0 <= i < |windows| =>
      assert windows[i] in windows;
      Chunk(text[windows[i].start..windows[i].end], windows[i].start, windows[i].end))
  }

  /** Ends of the blocks that lie within the clause. */
  function ClauseBounds(blocks: seq<Block>, clause: Span): seq<int> {
    if blocks == [] then []
    else
      var rest := ClauseBounds(blocks[1..], clause);
      var b := blocks[0];
      if clause.start <= b.start && b.end <= clause.end then [b.end] + rest else rest
  }

  function RangeChunks(text: string, range: Span, bounds: seq<int>): seq<Chunk>
    requires range.end <= |text|
  {
    WindowsWithin(text, range.start, range.end, bounds);
    MakeChunks(text, Windows(text, range.start, range.end, bounds))
  }

  lemma {:induction false} WindowsWithin(text: string, start: nat, end: nat, bounds: seq<int>)
    requires end <= |text|
    ensures forall w <- Windows(text, start, end, bounds) :: start <= w.start <= w.end <= end
  {
    if start < end {
      WindowsTile(text, start, end, bounds);
    }
  }

  function ClauseChunks(doc: ParsedDocument, clauses: seq<Span>): seq<Chunk>
    requires forall s <- clauses :: s.end <= |doc.text|
  {
    if clauses == [] then []
    else
      var last := clauses[|clauses| - 1];
      ClauseChunks(doc, clauses[..|clauses| - 1]) + RangeChunks(doc.text, last, ClauseBounds(doc.blocks, last))
  }

  predicate HasHeading(blocks: seq<Block>) {
    exists b <- blocks :: b.kind == Heading
  }

  function ChunksOf(doc: ParsedDocument): seq<Chunk>
    requires BlocksWithin(doc)
  {
    if doc.text == "" || doc.blocks == [] then []
    else if HasHeading(doc.blocks) then
      ClausesWithin(doc.blocks, |doc.text|);
      ClauseChunks(doc, ClauseSpans(doc.blocks))
    else RangeChunks(doc.text, Span(0, |doc.text|), [])
  }

  method ChunkDocument(doc: ParsedDocument) returns (chunks: seq<Chunk>)
    requires BlocksWithin(doc)
    ensures chunks == ChunksOf(doc)
  {
    if doc.text == "" || doc.blocks == [] {
      return [];
    }
    if HasHeading(doc.blocks) {
      var clauses := FindClauses(doc.blocks);
      ClausesWithin(doc.blocks, |doc.text|);
      chunks := [];
      for i := 0 to |clauses|
        invariant chunks == ClauseChunks(doc, clauses[..i])
      {
        assert clauses[..i + 1][..i] == clauses[..i];
        WindowsWithin(doc.text, clauses[i].start, clauses[i].end, ClauseBounds(doc.blocks, clauses[i]));
        var windows := SplitRange(doc.text, clauses[i].start, clauses[i].end, ClauseBounds(doc.blocks, clauses[i]));
        chunks := chunks + MakeChunks(doc.text, windows);
      }
      assert clauses[..|clauses|] == clauses;
    } else {
      WindowsWithin(doc.text, 0, |doc.text|, []);
      var windows := SplitRange(doc.text, 0, |doc.text|, []);
      chunks := MakeChunks(doc.text, windows);
    }
  }

  // ----- Which positions the clauses cover -----

  ghost predicate InSome(spans: seq<Span>, i: nat) {
    exists s <- spans :: Contains(s, i)
  }

  /** `i` lies in the separator immediately before heading block `k`. */
  predicate GapBefore(doc: ParsedDocument, k: nat, i: nat) {
    0 < k < |doc.blocks| && doc.blocks[k].kind == Heading && doc.blocks[k - 1].end <= i < doc.blocks[k].start
  }

  ghost predicate HeadingGap(doc: ParsedDocument, i: nat) {
    exists k: nat :: GapBefore(doc, k, i)
  }

  ghost predicate ClausesExact(doc: ParsedDocument) {
    var s := ScanBlocks(doc.blocks);
    && (doc.blocks == [] <==> s.start.None?)
    && s.end == |doc.text|
    && (s.start.Some? ==> s.start.value <= s.end)
    && (s.start.None? ==> s.spans == [])
    && forall i: nat :: InSome(Close(s), i) <==> i < |doc.text| && !HeadingGap(doc, i)
  }

  lemma {:induction false} InSomeAppend(spans: seq<Span>, last: Span, i: nat)
    ensures InSome(spans + [last], i) <==> InSome(spans, i) || Contains(last, i)
  {
    if InSome(spans, i) {
      var s :| s in spans && Contains(s, i);
      assert s in spans + [last];
    }
    if Contains(last, i) {
      assert last in spans + [last];
    }
  }

  lemma {:induction false} GapOfAdd(doc: ParsedDocument, e: Entry, i: nat)
    requires LaidOut(doc)
    ensures HeadingGap(Add(doc, e), i) <==>
            HeadingGap(doc, i) || (e.kind == Heading && doc.blocks != [] && |doc.text| <= i < |doc.text| + 2)
    ensures HeadingGap(doc, i) ==> i < |doc.text|
  {
    var longer, n := Add(doc, e), |doc.blocks|;
    if k: nat :| GapBefore(longer, k, i) {
      assert k < n ==> GapBefore(doc, k, i);
    }
    if k: nat :| GapBefore(doc, k, i) {
      assert GapBefore(longer, k, i);
      assert Joined(doc, k);
    }
    if e.kind == Heading && n > 0 && |doc.text| <= i < |doc.text| + 2 {
      assert GapBefore(longer, n, i);
    }
  }

  lemma {:induction false} AddClauses(doc: ParsedDocument, e: Entry)
    requires LaidOut(doc) && ClausesExact(doc)
    ensures ClausesExact(Add(doc, e))
  {
    var longer := Add(doc, e);
    var s, s' := ScanBlocks(doc.blocks), ScanBlocks(longer.blocks);
    assert longer.blocks[..|doc.blocks|] == doc.blocks;
    assert s' == ScanBlock(s, longer.blocks[|doc.blocks|]);
    forall i: nat ensures InSome(Close(s'), i) <==> i < |longer.text| && !HeadingGap(longer, i) {
      GapOfAdd(doc, e, i);
      InSomeAppend(s'.spans, Span(s'.start.value, s'.end), i);
      if s.start.Some? {
        InSomeAppend(s.spans, Span(s.start.value, s.end), i);
      }
    }
  }

  lemma {:induction false} BuildClauses(entries: seq<Entry>)
    ensures ClausesExact(Built(entries))
  {
    if entries == [] {
      assert forall i: nat :: !InSome([], i);
    } else {
      var init := entries[..|entries| - 1];
      BuildClauses(init);
      BuildLaysOut(init);
      AddClauses(Built(init), entries[|entries| - 1]);
    }
  }

  // ----- Which positions the chunks cover -----

  predicate Holds(c: Chunk, i: nat) {
    c.charStart <= i < c.charEnd
  }

  ghost predicate Covered(chunks: seq<Chunk>, i: nat) {
    exists c <- chunks :: Holds(c, i)
  }

  /** The chunk is a non-empty exact slice within the embedding budget. */
  ghost predicate Faithful(text: string, c: Chunk) {
    && c.charStart < c.charEnd <= |text|
    && c.charEnd - c.charStart <= MAX_CHUNK_CHARS
    && c.text == text[c.charStart..c.charEnd]
  }

  lemma {:induction false} RangeChunksExact(text: string, range: Span, bounds: seq<int>, i: nat)
    requires range.end <= |text|
    ensures forall c <- RangeChunks(text, range, bounds) :: Faithful(text, c)
    ensures Covered(RangeChunks(text, range, bounds), i) <==> Contains(range, i)
  {
    var windows, chunks := Windows(text, range.start, range.end, bounds), RangeChunks(text, range, bounds);
    if range.start < range.end {
      WindowsTile(text, range.start, range.end, bounds);
      forall c | c in chunks ensures Faithful(text, c) {
        var k :| 0 <= k < |chunks| && chunks[k] == c;
        assert windows[k] in windows;
      }
      if Contains(range, i) {
        var w := TilesCover(windows, range.start, range.end, i, 0);
        var k :| 0 <= k < |windows| && windows[k] == w;
        assert Holds(chunks[k], i);
      }
      if Covered(chunks, i) {
        var k :| 0 <= k < |chunks| && Holds(chunks[k], i);
        assert windows[k] in windows;
      }
    }
  }

  lemma {:induction false} ClauseChunksExact(doc: ParsedDocument, clauses: seq<Span>, i: nat)
    requires forall s <- clauses :: s.end <= |doc.text|
    ensures forall c <- ClauseChunks(doc, clauses) :: Faithful(doc.text, c)
    ensures Covered(ClauseChunks(doc, clauses), i) <==> InSome(clauses, i)
  {
    if clauses != [] {
      var init, last := clauses[..|clauses| - 1], clauses[|clauses| - 1];
      var a, b := ClauseChunks(doc, init), RangeChunks(doc.text, last, ClauseBounds(doc.blocks, last));
      ClauseChunksExact(doc, init, i);
      RangeChunksExact(doc.text, last, ClauseBounds(doc.blocks, last), i);
      assert clauses == init + [last];
      InSomeAppend(init, last, i);
      assert Covered(a + b, i) <==> Covered(a, i) || Covered(b, i) by {
        if c :| c in a + b && Holds(c, i) {
          assert c in a || c in b;
        }
        if c :| c in a && Holds(c, i) {
          assert c in a + b;
        }
        if c :| c in b && Holds(c, i) {
          assert c in a + b;
        }
      }
    }
  }

  lemma {:induction false} BuiltBlocksWithin(entries: seq<Entry>)
    ensures BlocksWithin(Built(entries))
  {
    BuildLaysOut(entries);
    var doc := Built(entries);
    forall b | b in doc.blocks ensures b.end <= |doc.text| {
      var k :| 0 <= k < |doc.blocks| && doc.blocks[k] == b;
      assert Joined(doc, k);
    }
  }

  /** Every chunk is an exact slice within the cap, and a position lies in a chunk unless it separates a heading. */
  lemma {:induction false} ChunksCoverDocument(entries: seq<Entry>, i: nat)
    ensures BlocksWithin(Built(entries))
    ensures forall c <- ChunksOf(Built(entries)) :: Faithful(Built(entries).text, c)
    ensures Covered(ChunksOf(Built(entries)), i) <==> i < |Built(entries).text| && !HeadingGap(Built(entries), i)
  {
    var doc := Built(entries);
    BuiltBlocksWithin(entries);
    BuildClauses(entries);
    ClausesWithin(doc.blocks, |doc.text|);
    if doc.text == "" || doc.blocks == [] {
    } else if HasHeading(doc.blocks) {
      ClauseChunksExact(doc, ClauseSpans(doc.blocks), i);
    } else {
      RangeChunksExact(doc.text, Span(0, |doc.text|), [], i);
      forall k: nat | k < |doc.blocks| ensures doc.blocks[k].kind != Heading {
        assert doc.blocks[k] in doc.blocks;
      }
    }
  }
}
