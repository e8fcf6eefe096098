/** Chunks keep to their clauses: where each one stops, and where the next one begins (app/services/chunking.py). */
module ClauseLaws {
  import opened Wrappers
  import opened Text
  import opened Parsing
  import opened Chunking
  import opened ClauseChunks

  // ----- Clauses are the runs between headings -----

  predicate BeginsClause(blocks: seq<Block>, i: nat) {
    i < |blocks| && (i == 0 || blocks[i].kind == Heading)
  }

  /** `openers` are the positions of the first block and of the headings, in order. */
  ghost predicate AreOpeners(blocks: seq<Block>, openers: seq<nat>) {
    && (forall q, r :: 0 <= q < r < |openers| ==> openers[q] < openers[r])
    && (forall i: nat :: i in openers <==> BeginsClause(blocks, i))
  }

  /** One past the last block of clause `q`. */
  function ClauseStop(blocks: seq<Block>, openers: seq<nat>, q: nat): nat {
    if q + 1 < |openers| then openers[q + 1] else |blocks|
  }

  /** The span runs from block `i` to the end of the block before `j`. */
  predicate Encloses(blocks: seq<Block>, i: nat, j: nat, clause: Span) {
    i < j <= |blocks| && clause == Span(blocks[i].start, blocks[j - 1].end)
  }

  ghost predicate AreClauses(blocks: seq<Block>, openers: seq<nat>, clauses: seq<Span>) {
    && |clauses| == |openers|
    && forall q :: 0 <= q < |openers| ==> Encloses(blocks, openers[q], ClauseStop(blocks, openers, q), clauses[q])
  }

  lemma {:induction false} OpenersOneMore(blocks: seq<Block>, b: Block, openers: seq<nat>) returns (more: seq<nat>)
    requires AreOpeners(blocks, openers)
    ensures more == if blocks == [] || b.kind == Heading then openers + [|blocks|] else openers
    ensures AreOpeners(blocks + [b], more)
  {
    var n := |blocks|;
    more := if blocks == [] || b.kind == Heading then openers + [n] else openers;
    forall q | 0 <= q < |openers| ensures openers[q] < n {
      assert openers[q] in openers && BeginsClause(blocks, openers[q]);
    }
    forall i: nat ensures i in more <==> BeginsClause(blocks + [b], i) {
      assert i < n ==> (BeginsClause(blocks, i) <==> BeginsClause(blocks + [b], i));
    }
  }

  lemma {:induction false} ScanKeepsOpen(blocks: seq<Block>)
    ensures blocks == [] <==> ScanBlocks(blocks).start.None?
  {
    if blocks != [] {
      ScanKeepsOpen(blocks[..|blocks| - 1]);
    }
  }

  lemma {:induction false} SpansOneMore(blocks: seq<Block>, b: Block)
    ensures blocks != [] ==> ClauseSpans(blocks) != []
    ensures ClauseSpans(blocks + [b]) ==
            if blocks == [] || b.kind == Heading then ClauseSpans(blocks) + [Span(b.start, b.end)]
            else
              var last := ClauseSpans(blocks)[|ClauseSpans(blocks)| - 1];
              ClauseSpans(blocks)[..|ClauseSpans(blocks)| - 1] + [Span(last.start, b.end)]
  {
    ScanKeepsOpen(blocks);
    assert (blocks + [b])[..|blocks|] == blocks;
    assert ClauseSpans(blocks + [b]) == Close(ScanBlock(ScanBlocks(blocks), b));
  }

  lemma {:induction false} RunOpens(blocks: seq<Block>, b: Block, openers: seq<nat>, clauses: seq<Span>)
    requires AreOpeners(blocks, openers) && AreClauses(blocks, openers, clauses)
    ensures AreClauses(blocks + [b], openers + [|blocks|], clauses + [Span(b.start, b.end)])
  {
    var more, after := openers + [|blocks|], clauses + [Span(b.start, b.end)];
    forall q | 0 <= q < |openers| ensures Encloses(blocks + [b], more[q], ClauseStop(blocks + [b], more, q), after[q]) {
      assert Encloses(blocks, openers[q], ClauseStop(blocks, openers, q), clauses[q]);
    }
  }

  lemma {:induction false} RunExtends(blocks: seq<Block>, b: Block, openers: seq<nat>, clauses: seq<Span>)
    requires AreOpeners(blocks, openers) && AreClauses(blocks, openers, clauses) && blocks != []
    ensures clauses != []
    ensures var k := |clauses| - 1;
            AreClauses(blocks + [b], openers, clauses[..k] + [Span(clauses[k].start, b.end)])
  {
    assert BeginsClause(blocks, 0);
    var k := |clauses| - 1;
    var after := clauses[..k] + [Span(clauses[k].start, b.end)];
    forall q | 0 <= q < |openers|
      ensures Encloses(blocks + [b], openers[q], ClauseStop(blocks + [b], openers, q), after[q])
    {
      assert Encloses(blocks, openers[q], ClauseStop(blocks, openers, q), clauses[q]);
      if q == k {
        assert after[q] == Span(blocks[openers[q]].start, b.end);
      } else {
        assert after[q] == clauses[q];
      }
    }
  }

  lemma {:induction false} OneMoreRun(blocks: seq<Block>, b: Block, openers: seq<nat>) returns (more: seq<nat>)
    requires AreOpeners(blocks, openers) && AreClauses(blocks, openers, ClauseSpans(blocks))
    ensures AreOpeners(blocks + [b], more) && AreClauses(blocks + [b], more, ClauseSpans(blocks + [b]))
  {
    more := OpenersOneMore(blocks, b, openers);
    SpansOneMore(blocks, b);
    if blocks == [] || b.kind == Heading {
      RunOpens(blocks, b, openers, ClauseSpans(blocks));
    } else {
      RunExtends(blocks, b, openers, ClauseSpans(blocks));
    }
  }

  /** The clauses are exactly the runs of blocks from one opener to the next. */
  lemma {:induction false} ClausesAreRuns(blocks: seq<Block>) returns (openers: seq<nat>)
    ensures AreOpeners(blocks, openers) && AreClauses(blocks, openers, ClauseSpans(blocks))
  {
    if blocks == [] {
      openers := [];
    } else {
      var init, b := blocks[..|blocks| - 1], blocks[|blocks| - 1];
      assert blocks == init + [b];
      var before := ClausesAreRuns(init);
      openers := OneMoreRun(init, b, before);
    }
  }

  // ----- Where a chunk of a clause stops -----

  function EndsOf(blocks: seq<Block>): seq<int> {
    seq(|blocks|, m requires 0 <= m < |blocks| => blocks[m].end)
  }

  /** The chunk lies in the clause of blocks `i` to `j`, and ends it or stops at the end of one of its blocks. */
  ghost predicate KeepsToClause(doc: ParsedDocument, i: nat, j: nat, c: Chunk)
    requires i < j <= |doc.blocks|
  {
    var end := doc.blocks[j - 1].end;
    && doc.blocks[i].start <= c.charStart < c.charEnd <= end
    && if end - c.charStart <= MAX_CHUNK_CHARS then c.charEnd == end
       else StopsWell(doc.text, EndsOf(doc.blocks[i..j]), c.charStart, c.charEnd)
  }

  /** In a document without headings only the last cut counts. */
  ghost predicate KeepsToText(doc: ParsedDocument, c: Chunk) {
    if |doc.text| - c.charStart <= MAX_CHUNK_CHARS then c.charEnd == |doc.text|
    else AtLastCut(doc.text, c.charStart, c.charEnd)
  }

  lemma {:induction false} ClauseBoundsMeans(blocks: seq<Block>, clause: Span, b: int)
    ensures b in ClauseBounds(blocks, clause) <==> EndWithin(blocks, clause, b)
  {
    if blocks != [] {
      ClauseBoundsMeans(blocks[1..], clause, b);
      assert blocks == [blocks[0]] + blocks[1..];
    }
  }

  lemma {:induction false} BoundsAreEnds(entries: seq<Entry>, i: nat, j: nat, clause: Span, b: int)
    requires Encloses(Built(entries).blocks, i, j, clause)
    ensures b in ClauseBounds(Built(entries).blocks, clause) <==> b in EndsOf(Built(entries).blocks[i..j])
  {
    var blocks := Built(entries).blocks;
    BuildLaysOut(entries);
    ClauseBoundsMeans(blocks, clause, b);
    if b in EndsOf(blocks[i..j]) {
      EndIsBound(Built(entries), i, j, clause, b);
    }
    if b in ClauseBounds(blocks, clause) {
      BoundIsEnd(Built(entries), i, j, clause, b);
    }
  }

  ghost predicate EndWithin(blocks: seq<Block>, clause: Span, b: int) {
    exists x <- blocks :: x.end == b && clause.start <= x.start && x.end <= clause.end
  }

  lemma {:induction false} EndIsBound(doc: ParsedDocument, i: nat, j: nat, clause: Span, b: int)
    requires LaidOut(doc) && Encloses(doc.blocks, i, j, clause) && b in EndsOf(doc.blocks[i..j])
    ensures EndWithin(doc.blocks, clause, b)
  {
    var ends := EndsOf(doc.blocks[i..j]);
    var m :| 0 <= m < |ends| && ends[m] == b;
    BlockWithin(doc, i, j, i + m);
    assert doc.blocks[i + m] in doc.blocks;
  }

  lemma {:induction false} BoundIsEnd(doc: ParsedDocument, i: nat, j: nat, clause: Span, b: int)
    requires LaidOut(doc) && Encloses(doc.blocks, i, j, clause) && EndWithin(doc.blocks, clause, b)
    ensures b in EndsOf(doc.blocks[i..j])
  {
    var x :| x in doc.blocks && x.end == b && clause.start <= x.start && x.end <= clause.end;
    var m: nat :| m < |doc.blocks| && doc.blocks[m] == x;
    BlockWithin(doc, i, j, m);
    assert EndsOf(doc.blocks[i..j])[m - i] == b;
  }

  /** Blocks lie within a clause's span exactly when they belong to it. */
  lemma {:induction false} BlockWithin(doc: ParsedDocument, i: nat, j: nat, m: nat)
    requires LaidOut(doc) && i < j <= |doc.blocks| && m < |doc.blocks|
    ensures i <= m < j <==> doc.blocks[i].start <= doc.blocks[m].start && doc.blocks[m].end <= doc.blocks[j - 1].end
  {
    assert Joined(doc, i) && Joined(doc, m) && Joined(doc, j - 1);
    if m < i {
      BlockOrder(doc, m, i);
    } else if i < m {
      BlockOrder(doc, i, m);
    }
    if m < j - 1 {
      BlockOrder(doc, m, j - 1);
    } else if j - 1 < m {
      BlockOrder(doc, j - 1, m);
    }
  }

  lemma {:induction false} StopsWellWithSame(text: string, a: seq<int>, b: seq<int>, start: nat, stop: nat)
    requires StopsWell(text, a, start, stop) && forall x :: x in a <==> x in b
    ensures StopsWell(text, b, start, stop)
  {
    forall x ensures InReach(a, start, x) <==> InReach(b, start, x) {
    }
  }

  lemma {:induction false} RangeChunkStops(text: string, range: Span, bounds: seq<int>, k: nat)
    requires range.end <= |text| && k < |RangeChunks(text, range, bounds)|
    ensures var c := RangeChunks(text, range, bounds)[k];
            && range.start <= c.charStart < c.charEnd <= range.end
            && if range.end - c.charStart <= MAX_CHUNK_CHARS then c.charEnd == range.end
               else StopsWell(text, bounds, c.charStart, c.charEnd)
  {
    var ws := Windows(text, range.start, range.end, bounds);
    WindowsTile(text, range.start, range.end, bounds);
    WindowsStopAndResumeWell(text, range.start, range.end, bounds, k);
    assert ws[k] in ws;
  }

  lemma {:induction false} ClauseChunkStops(entries: seq<Entry>, i: nat, j: nat, clause: Span, k: nat)
    requires Encloses(Built(entries).blocks, i, j, clause) && clause.end <= |Built(entries).text|
    requires k < |RangeChunks(Built(entries).text, clause, ClauseBounds(Built(entries).blocks, clause))|
    ensures KeepsToClause(Built(entries), i, j,
              RangeChunks(Built(entries).text, clause, ClauseBounds(Built(entries).blocks, clause))[k])
  {
    var doc := Built(entries);
    var bounds := ClauseBounds(doc.blocks, clause);
    RangeChunkStops(doc.text, clause, bounds, k);
    forall b ensures b in bounds <==> b in EndsOf(doc.blocks[i..j]) {
      BoundsAreEnds(entries, i, j, clause, b);
    }
    var c := RangeChunks(doc.text, clause, bounds)[k];
    if clause.end - c.charStart > MAX_CHUNK_CHARS {
      StopsWellWithSame(doc.text, bounds, EndsOf(doc.blocks[i..j]), c.charStart, c.charEnd);
    }
  }

  ghost predicate KeepsToSomeClause(doc: ParsedDocument, openers: seq<nat>, c: Chunk) {
    exists q: nat :: q < |openers| && openers[q] < ClauseStop(doc.blocks, openers, q) <= |doc.blocks|
      && KeepsToClause(doc, openers[q], ClauseStop(doc.blocks, openers, q), c)
  }

  lemma {:induction false} ClauseChunksOneMore(doc: ParsedDocument, clauses: seq<Span>, q: nat)
    requires q < |clauses| && forall s <- clauses :: s.end <= |doc.text|
    ensures clauses[q].end <= |doc.text|
    ensures ClauseChunks.ClauseChunks(doc, clauses[..q + 1]) ==
            ClauseChunks.ClauseChunks(doc, clauses[..q])
            + RangeChunks(doc.text, clauses[q], ClauseBounds(doc.blocks, clauses[q]))
  {
    assert clauses[..q + 1][..q] == clauses[..q] && clauses[q] in clauses;
  }

  lemma {:induction false} ChunksOfClausesKeep(entries: seq<Entry>, openers: seq<nat>, clauses: seq<Span>, n: nat)
    requires AreClauses(Built(entries).blocks, openers, clauses) && n <= |clauses|
    requires forall s <- clauses :: s.end <= |Built(entries).text|
    ensures forall c <- ClauseChunks.ClauseChunks(Built(entries), clauses[..n]) ::
              KeepsToSomeClause(Built(entries), openers, c)
    decreases n
  {
    if n > 0 {
      var doc, q := Built(entries), n - 1;
      ChunksOfClausesKeep(entries, openers, clauses, q);
      ClauseChunksOneMore(doc, clauses, q);
      var last := RangeChunks(doc.text, clauses[q], ClauseBounds(doc.blocks, clauses[q]));
      forall c | c in last ensures KeepsToSomeClause(doc, openers, c) {
        var k :| 0 <= k < |last| && last[k] == c;
        assert Encloses(doc.blocks, openers[q], ClauseStop(doc.blocks, openers, q), clauses[q]);
        ClauseChunkStops(entries, openers[q], ClauseStop(doc.blocks, openers, q), clauses[q], k);
      }
    }
  }

  lemma {:induction false} AllClausesKeep(entries: seq<Entry>, openers: seq<nat>)
    requires AreClauses(Built(entries).blocks, openers, ClauseSpans(Built(entries).blocks))
    requires forall s <- ClauseSpans(Built(entries).blocks) :: s.end <= |Built(entries).text|
    ensures forall c <- ClauseChunks.ClauseChunks(Built(entries), ClauseSpans(Built(entries).blocks)) ::
              KeepsToSomeClause(Built(entries), openers, c)
  {
    var clauses := ClauseSpans(Built(entries).blocks);
    ChunksOfClausesKeep(entries, openers, clauses, |clauses|);
    assert clauses[..|clauses|] == clauses;
  }

  lemma {:induction false} WindowsKeepToText(doc: ParsedDocument)
    ensures forall c <- RangeChunks(doc.text, Span(0, |doc.text|), []) :: KeepsToText(doc, c)
  {
    var chunks := RangeChunks(doc.text, Span(0, |doc.text|), []);
    forall c | c in chunks ensures KeepsToText(doc, c) {
      var k :| 0 <= k < |chunks| && chunks[k] == c;
      RangeChunkStops(doc.text, Span(0, |doc.text|), [], k);
      assert forall b :: !InReach([], c.charStart, b);
    }
  }

  /**
   * Every chunk lies in one clause, from one heading to the next, and ends it if the rest fits; else it stops at the
   * furthest end of a block of that clause that leaves it half full, or at the last cut if there is none.
   */
  lemma {:induction false} ChunksKeepToClauses(entries: seq<Entry>) returns (openers: seq<nat>)
    ensures BlocksWithin(Built(entries)) && AreOpeners(Built(entries).blocks, openers)
    ensures forall c <- ChunksOf(Built(entries)) ::
              if HasHeading(Built(entries).blocks) then KeepsToSomeClause(Built(entries), openers, c)
              else KeepsToText(Built(entries), c)
  {
    var doc := Built(entries);
    BuiltBlocksWithin(entries);
    ClausesWithin(doc.blocks, |doc.text|);
    openers := ClausesAreRuns(doc.blocks);
    if HasHeading(doc.blocks) {
      AllClausesKeep(entries, openers);
    } else {
      WindowsKeepToText(doc);
    }
  }

  // ----- Where the next chunk begins -----

  /** The first chunk ends a clause and the second one begins a later clause. */
  ghost predicate HandsOver(doc: ParsedDocument, a: Chunk, b: Chunk) {
    exists m: nat, n: nat :: 0 < m <= n < |doc.blocks| && doc.blocks[m].kind == doc.blocks[n].kind == Heading
                             && a.charEnd == doc.blocks[m - 1].end && b.charStart == doc.blocks[n].start
  }

  ghost predicate Succeeds(doc: ParsedDocument, a: Chunk, b: Chunk) {
    a.charEnd <= |doc.text|
    && (ResumesWell(doc.text, Span(a.charStart, a.charEnd), b.charStart) || HandsOver(doc, a, b))
  }

  lemma {:induction false} RangeChunksSucceed(doc: ParsedDocument, range: Span, bounds: seq<int>, k: nat)
    requires range.end <= |doc.text| && k < |RangeChunks(doc.text, range, bounds)|
    ensures var cs := RangeChunks(doc.text, range, bounds);
            && cs[0].charStart == range.start && cs[|cs| - 1].charEnd == range.end
            && (k + 1 < |cs| ==> Succeeds(doc, cs[k], cs[k + 1]))
  {
    WindowsTile(doc.text, range.start, range.end, bounds);
    WindowsStopAndResumeWell(doc.text, range.start, range.end, bounds, k);
  }

  ghost predicate AllSucceed(doc: ParsedDocument, chunks: seq<Chunk>) {
    forall k :: 0 <= k < |chunks| - 1 ==> Succeeds(doc, chunks[k], chunks[k + 1])
  }

  lemma {:induction false} RangeAllSucceed(doc: ParsedDocument, range: Span, bounds: seq<int>)
    requires range.end <= |doc.text|
    ensures var cs := RangeChunks(doc.text, range, bounds);
            && AllSucceed(doc, cs)
            && (cs != [] ==> cs[0].charStart == range.start && cs[|cs| - 1].charEnd == range.end)
  {
    var cs := RangeChunks(doc.text, range, bounds);
    forall k | 0 <= k < |cs| - 1 ensures Succeeds(doc, cs[k], cs[k + 1]) {
      RangeChunksSucceed(doc, range, bounds, k);
    }
    if cs != [] {
      RangeChunksSucceed(doc, range, bounds, 0);
    }
  }

  /** All chunks follow each other properly, and the last one ends one of the first `n` clauses. */
  ghost predicate ChainUpTo(doc: ParsedDocument, clauses: seq<Span>, n: nat, chunks: seq<Chunk>) {
    && AllSucceed(doc, chunks)
    && (chunks != [] ==> exists q: nat :: EndsAt(chunks, clauses, q) && q < n)
  }

  predicate EndsAt(chunks: seq<Chunk>, clauses: seq<Span>, q: nat) {
    chunks != [] && q < |clauses| && chunks[|chunks| - 1].charEnd == clauses[q].end
  }

  lemma {:induction false} ChainOneMore(
      doc: ParsedDocument, openers: seq<nat>, clauses: seq<Span>, q: nat, before: seq<Chunk>, last: seq<Chunk>)
    requires AreOpeners(doc.blocks, openers) && AreClauses(doc.blocks, openers, clauses) && q < |clauses|
    requires forall s <- clauses :: s.end <= |doc.text|
    requires ChainUpTo(doc, clauses, q, before) && AllSucceed(doc, last)
    requires last != [] ==> last[0].charStart == clauses[q].start && last[|last| - 1].charEnd == clauses[q].end
    ensures ChainUpTo(doc, clauses, q + 1, before + last)
  {
    if before != [] && last != [] {
      var r: nat :| EndsAt(before, clauses, r) && r < q;
      assert clauses[r] in clauses;
      ClausesHandOver(doc, openers, clauses, r, q, before[|before| - 1], last[0]);
    }
    JoinedSucceed(doc, before, last);
    if last != [] {
      assert EndsAt(before + last, clauses, q);
    } else {
      assert before + last == before;
    }
  }

  lemma {:induction false} ClauseChunksSucceed(doc: ParsedDocument, openers: seq<nat>, clauses: seq<Span>, n: nat)
    requires AreOpeners(doc.blocks, openers) && AreClauses(doc.blocks, openers, clauses) && n <= |clauses|
    requires forall s <- clauses :: s.end <= |doc.text|
    ensures ChainUpTo(doc, clauses, n, ClauseChunks.ClauseChunks(doc, clauses[..n]))
    decreases n
  {
    if n > 0 {
      var q := n - 1;
      ClauseChunksSucceed(doc, openers, clauses, q);
      assert clauses[q] in clauses;
      var bounds := ClauseBounds(doc.blocks, clauses[q]);
      var last := RangeChunks(doc.text, clauses[q], bounds);
      RangeAllSucceed(doc, clauses[q], bounds);
      ChainOneMore(doc, openers, clauses, q, ClauseChunks.ClauseChunks(doc, clauses[..q]), last);
      ClauseChunksOneMore(doc, clauses, q);
    }
  }

  lemma {:induction false} JoinedSucceed(doc: ParsedDocument, a: seq<Chunk>, b: seq<Chunk>)
    requires AllSucceed(doc, a) && AllSucceed(doc, b)
    requires a != [] && b != [] ==> Succeeds(doc, a[|a| - 1], b[0])
    ensures AllSucceed(doc, a + b)
  {
  }

  lemma {:induction false} ClausesHandOver(
      doc: ParsedDocument, openers: seq<nat>, clauses: seq<Span>, r: nat, q: nat, a: Chunk, b: Chunk)
    requires AreOpeners(doc.blocks, openers) && AreClauses(doc.blocks, openers, clauses) && r < q < |clauses|
    requires a.charEnd == clauses[r].end <= |doc.text| && b.charStart == clauses[q].start
    ensures Succeeds(doc, a, b)
  {
    var m, n := openers[r + 1], openers[q];
    assert Encloses(doc.blocks, openers[r], m, clauses[r]);
    assert Encloses(doc.blocks, n, ClauseStop(doc.blocks, openers, q), clauses[q]);
    assert m in openers && n in openers;
    assert BeginsClause(doc.blocks, m) && BeginsClause(doc.blocks, n);
  }

  /** Each chunk is followed by the one that resumes it right after the whitespace of the overlap, or hands over. */
  lemma {:induction false} ChunksSucceed(entries: seq<Entry>)
    ensures BlocksWithin(Built(entries)) && AllSucceed(Built(entries), ChunksOf(Built(entries)))
  {
    var doc := Built(entries);
    BuiltBlocksWithin(entries);
    ClausesWithin(doc.blocks, |doc.text|);
    if HasHeading(doc.blocks) {
      var openers := ClausesAreRuns(doc.blocks);
      var clauses := ClauseSpans(doc.blocks);
      ClauseChunksSucceed(doc, openers, clauses, |clauses|);
      assert clauses[..|clauses|] == clauses;
    } else if doc.text != "" && doc.blocks != [] {
      RangeAllSucceed(doc, Span(0, |doc.text|), []);
    }
  }
}
