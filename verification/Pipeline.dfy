/**
 * From a model citation to a retrieved chunk: no grounded citation is lost to chunking, except in a heading's
 * separator.
 */
module Pipeline {
  import opened Parsing
  import opened Chunking
  import opened ClauseChunks
  import opened Extraction
  import opened Impact

  function HitsOf(chunks: seq<Chunk>): seq<Hit> {
    seq(|chunks|, i requires 0 <= i < |chunks| => Hit(chunks[i].charStart, chunks[i].charEnd))
  }

  /** Some cited character is not part of a separator before a heading. */
  ghost predicate CitesBeyondGaps(doc: ParsedDocument, c: Citation) {
    exists i: nat :: c.charStart <= i < c.charEnd && !HeadingGap(doc, i)
  }

  lemma {:induction false} OverlapsWhereHeld(chunk: Chunk, c: Citation, i: nat)
    requires Holds(chunk, i) && c.charStart <= i < c.charEnd
    ensures Overlaps(c, Hit(chunk.charStart, chunk.charEnd))
  {
  }

  /** A grounded citation overlaps some chunk of its document if and only if it cites beyond heading separators. */
  lemma {:induction false} GroundedCitationIsRetrievable(entries: seq<Entry>, c: Citation)
    requires Grounded(c, Built(entries).text)
    ensures BlocksWithin(Built(entries))
    ensures OverlapsSome(c, HitsOf(ChunksOf(Built(entries)))) <==> CitesBeyondGaps(Built(entries), c)
  {
    var doc := Built(entries);
    BuiltBlocksWithin(entries);
    var chunks := ChunksOf(doc);
    var hits := HitsOf(chunks);
    if i: nat :| c.charStart <= i < c.charEnd && !HeadingGap(doc, i) {
      ChunksCoverDocument(entries, i);
      var k :| 0 <= k < |chunks| && Holds(chunks[k], i);
      OverlapsWhereHeld(chunks[k], c, i);
      assert hits[k] in hits;
    }
    if k :| 0 <= k < |hits| && Overlaps(c, hits[k]) {
      var i: nat := Max(c.charStart, hits[k].charStart);
      ChunksCoverDocument(entries, i);
      assert chunks[k] in chunks;
      assert Faithful(doc.text, chunks[k]);
      assert Holds(chunks[k], i);
      assert Covered(chunks, i);
    }
  }

  /**
   * With every chunk retrieved and room for all, exactly the obligations that cite beyond separators are candidates.
   */
  lemma {:induction false} EveryGroundedObligationIsSelectable(
      entries: seq<Entry>, obligations: seq<Obligation>, i: nat)
    requires i < |obligations| && Grounded(obligations[i].citation, Built(entries).text)
    ensures BlocksWithin(Built(entries))
    ensures var candidates := Candidates(obligations, HitsOf(ChunksOf(Built(entries))));
            && (i in candidates <==> CitesBeyondGaps(Built(entries), obligations[i].citation))
            && forall limit :: limit < 1 || limit >= |obligations| ==> Capped(candidates, limit) == candidates
  {
    GroundedCitationIsRetrievable(entries, obligations[i].citation);
    var hits := HitsOf(ChunksOf(Built(entries)));
    CandidatesAreExact(obligations, hits);
    NoMoreCandidatesThanObligations(obligations, hits);
  }

  lemma {:induction false} NoMoreCandidatesThanObligations(obligations: seq<Obligation>, hits: seq<Hit>)
    ensures |Candidates(obligations, hits)| <= |obligations|
  {
    CandidatesAreExact(obligations, hits);
    var candidates := Candidates(obligations, hits);
    forall r, s | 0 <= r < s < |candidates| ensures candidates[r] != candidates[s] {
      assert RankedBefore(obligations, hits, candidates[r], candidates[s]);
    }
    forall r | 0 <= r < |candidates| ensures candidates[r] < |obligations| {
      assert candidates[r] in candidates;
    }
    Pigeonhole(candidates, |obligations|);
  }

  ghost predicate DistinctBelow(xs: seq<nat>, n: nat) {
    (forall r, s :: 0 <= r < s < |xs| ==> xs[r] != xs[s]) && forall r :: 0 <= r < |xs| ==> xs[r] < n
  }

  lemma {:induction false} WithoutTop(xs: seq<nat>, n: nat, r: nat) returns (rest: seq<nat>)
    requires n > 0 && DistinctBelow(xs, n) && r < |xs| && xs[r] == n - 1
    ensures DistinctBelow(rest, n - 1) && |rest| == |xs| - 1
  {
    rest := seq(|xs| - 1, i requires 0 <= i < |xs| - 1 => xs[if i < r then i else i + 1]);
    forall i | 0 <= i < |rest| ensures rest[i] < n - 1 {
      var at := if i < r then i else i + 1;
      assert rest[i] == xs[at] && (if at < r then xs[at] != xs[r] else xs[r] != xs[at]);
    }
  }

  /** Distinct numbers below `n` are at most `n`. */
  lemma {:induction false} Pigeonhole(xs: seq<nat>, n: nat)
    requires DistinctBelow(xs, n)
    ensures |xs| <= n
    decreases n
  {
    assert |xs| > 0 ==> xs[0] < n;
    if n == 0 {
    } else if r: nat :| r < |xs| && xs[r] == n - 1 {
      var rest := WithoutTop(xs, n, r);
      Pigeonhole(rest, n - 1);
    } else {
      assert DistinctBelow(xs, n - 1);
      Pigeonhole(xs, n - 1);
    }
  }
}
