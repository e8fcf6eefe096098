/** Hybrid search: two engine rankings fused into one page of hits (app/services/search.py). */
module Search {
  import opened Fusion
  import opened FusionLaws

  datatype RankedChunk = RankedChunk(id: nat, documentId: nat, ordinal: nat, text: string, charStart: nat, charEnd: nat)

  datatype SearchHit = SearchHit(chunk: RankedChunk, score: real)

  // ----- A fusion is determined by its rankings -----

  /** What stands at `p` in one fusion stands at `p` or later in another that agrees with it before. */
  lemma {:induction false} FoundFrom<S(!new)>(
      rankings: seq<seq<S>>, k: nat, f: seq<(S, real)>, g: seq<(S, real)>, p: nat) returns (j: nat)
    requires IsFusion(rankings, k, f) && IsFusion(rankings, k, g)
    requires p < |f| && p <= |g| && Items(f)[..p] == Items(g)[..p]
    ensures p <= j < |g| && g[j].0 == f[p].0
  {
    var xs, ys := Items(f), Items(g);
    assert xs[p] in xs;
    assert xs[p] in ys;
    j :| 0 <= j < |ys| && ys[j] == xs[p];
    forall q | 0 <= q < p ensures ys[q] != xs[p] {
      assert xs[..p][q] == ys[..p][q];
    }
  }

  lemma {:induction false} SameNext<S(!new)>(
      rankings: seq<seq<S>>, k: nat, f: seq<(S, real)>, g: seq<(S, real)>, p: nat)
    requires IsFusion(rankings, k, f) && IsFusion(rankings, k, g)
    requires p < |f| && p <= |g| && Items(f)[..p] == Items(g)[..p]
    ensures p < |g| && f[p].0 == g[p].0
  {
    var j := FoundFrom(rankings, k, f, g, p);
    var i := FoundFrom(rankings, k, g, f, p);
    assert p < j ==> Precedes(rankings, k, g[p].0, f[p].0);
    assert p < i ==> Precedes(rankings, k, f[p].0, g[p].0);
  }

  lemma {:induction false} SamePrefix<S(!new)>(
      rankings: seq<seq<S>>, k: nat, f: seq<(S, real)>, g: seq<(S, real)>, n: nat)
    requires IsFusion(rankings, k, f) && IsFusion(rankings, k, g) && n <= |f|
    ensures n <= |g| && Items(f)[..n] == Items(g)[..n]
  {
    if n > 0 {
      var xs, ys, p := Items(f), Items(g), n - 1;
      SamePrefix(rankings, k, f, g, p);
      SameNext(rankings, k, f, g, p);
      assert xs[..n] == xs[..p] + [xs[p]] && ys[..n] == ys[..p] + [ys[p]];
    }
  }

  /** Equal inputs give equal fused lists: ties never shuffle between runs. */
  lemma {:induction false} FusionIsUnique<S(!new)>(rankings: seq<seq<S>>, k: nat, f: seq<(S, real)>, g: seq<(S, real)>)
    requires IsFusion(rankings, k, f) && IsFusion(rankings, k, g)
    ensures f == g
  {
    SamePrefix(rankings, k, f, g, |f|);
    SamePrefix(rankings, k, g, f, |g|);
    assert Items(f)[..|f|] == Items(f) && Items(g)[..|g|] == Items(g);
    forall i | 0 <= i < |f| ensures f[i] == g[i] {
      assert Items(f)[i] == Items(g)[i];
    }
  }

  // ----- One page of hits -----

  function Ids(rows: seq<RankedChunk>): seq<nat> {
    seq(|rows|, i requires 0 <= i < |rows| => rows[i].id)
  }

  /** Both engines rank rows of one table, so an id names one row. */
  ghost predicate OneTable(rows: seq<RankedChunk>) {
    forall i, j :: 0 <= i < |rows| && 0 <= j < |rows| && rows[i].id == rows[j].id ==> rows[i] == rows[j]
  }

  function ById(rows: seq<RankedChunk>): map<nat, RankedChunk> {
    if rows == [] then map[]
    else
      var last := rows[|rows| - 1];
      ById(rows[..|rows| - 1])[last.id := last]
  }

  lemma {:induction false} ByIdHoldsRows(rows: seq<RankedChunk>)
    ensures forall id :: id in ById(rows) <==> id in Ids(rows)
    ensures forall id <- ById(rows) :: ById(rows)[id].id == id && ById(rows)[id] in rows
  {
    if rows != [] {
      var init := rows[..|rows| - 1];
      ByIdHoldsRows(init);
      assert Ids(rows) == Ids(init) + [rows[|rows| - 1].id];
    }
  }

  /** The hit list is the first `limit` places of the fusion, each hit carrying the row its id names. */
  ghost predicate IsPage(rows: seq<RankedChunk>, fused: seq<(nat, real)>, limit: nat, hits: seq<SearchHit>) {
    && |hits| == (if limit < |fused| then limit else |fused|)
    && forall i :: 0 <= i < |hits| ==>
         hits[i].chunk in rows && hits[i].chunk.id == fused[i].0 && hits[i].score == fused[i].1
  }

  /** Fused items are ids of ranked rows. */
  lemma {:induction false} FusedIdsAreRows(a: seq<RankedChunk>, b: seq<RankedChunk>, fused: seq<(nat, real)>, i: nat)
    requires IsFusion([Ids(a), Ids(b)], RRF_K, fused) && i < |fused|
    ensures fused[i].0 in Ids(a + b)
  {
    TwoScores(Ids(a), Ids(b), RRF_K, 0);
    assert Ids(a + b) == Ids(a) + Ids(b);
    assert Items(fused)[i] in Items(fused);
  }

  lemma {:induction false} PageForEveryFusion(
      rankings: seq<seq<nat>>, rows: seq<RankedChunk>, fused: seq<(nat, real)>, limit: nat, hits: seq<SearchHit>)
    requires IsFusion(rankings, RRF_K, fused) && IsPage(rows, fused, limit, hits)
    ensures forall other :: IsFusion(rankings, RRF_K, other) ==> IsPage(rows, other, limit, hits)
  {
    forall other | IsFusion(rankings, RRF_K, other) ensures other == fused {
      FusionIsUnique(rankings, RRF_K, other, fused);
    }
  }

  method HybridHits(
      vectorRanked: seq<RankedChunk>, ftsRanked: seq<RankedChunk>, limit: nat) returns (hits: seq<SearchHit>)
    requires OneTable(vectorRanked + ftsRanked)
    ensures forall fused :: IsFusion([Ids(vectorRanked), Ids(ftsRanked)], RRF_K, fused)
              ==> IsPage(vectorRanked + ftsRanked, fused, limit, hits)
  {
    var rows := vectorRanked + ftsRanked;
    var byId := ById(rows);
    ByIdHoldsRows(rows);
    var rankings := [Ids(vectorRanked), Ids(ftsRanked)];
    var fused := RrfFuse(rankings, RRF_K);
    hits := [];
    var n := if limit < |fused| then limit else |fused|;
    for i := 0 to n
      invariant |hits| == i
      invariant forall j :: 0 <= j < i ==>
                  hits[j].chunk in rows && hits[j].chunk.id == fused[j].0 && hits[j].score == fused[j].1
    {
      FusedIdsAreRows(vectorRanked, ftsRanked, fused, i);
      hits := hits + [SearchHit(byId[fused[i].0], fused[i].1)];
    }
    PageForEveryFusion(rankings, rows, fused, limit, hits);
  }
}
