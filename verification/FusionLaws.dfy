/** What fused positions mean: dominance and agreement between engines (app/services/search.py). */
module FusionLaws {
  import opened Fusion

  // ----- Scores of duplicate-free rankings -----

  lemma {:induction false} ShareFalls(k: nat, i: nat, j: nat)
    requires i <= j
    ensures Share(k, i) >= Share(k, j)
    ensures i < j ==> Share(k, i) > Share(k, j)
  {
    var x, y := (k + i + 1) as real, (k + j + 1) as real;
    assert 1.0 / x - 1.0 / y == (y - x) / (x * y);
  }

  /** An item listed once contributes exactly the share of its position. */
  lemma {:induction false} RankScoreOnce<S>(ranking: seq<S>, k: nat, i: nat)
    requires NoDuplicates(ranking) && i < |ranking|
    ensures RankScore(ranking, k, ranking[i]) == Share(k, i)
  {
    var n := |ranking| - 1;
    if i < n {
      RankScoreOnce(ranking[..n], k, i);
    } else {
      AbsentScoresZero(ranking[..n], k, ranking[n]);
    }
  }

  lemma {:induction false} RankScoreOf<S>(ranking: seq<S>, k: nat, item: S)
    requires NoDuplicates(ranking)
    ensures RankScore(ranking, k, item) == if item in ranking then Share(k, IndexOf(ranking, item)) else 0.0
  {
    if item in ranking {
      RankScoreOnce(ranking, k, IndexOf(ranking, item));
    } else {
      AbsentScoresZero(ranking, k, item);
    }
  }

  // ----- Dominance -----

  /** `a` stands above `b` in the ranking, or `b` is not in it. */
  ghost predicate Above<S>(ranking: seq<S>, a: S, b: S) {
    b in ranking ==> a in ranking && IndexOf(ranking, a) < IndexOf(ranking, b)
  }

  lemma {:induction false} AboveScores<S>(rankings: seq<seq<S>>, k: nat, a: S, b: S)
    requires forall r <- rankings :: NoDuplicates(r) && Above(r, a, b)
    ensures Score(rankings, k, a) >= Score(rankings, k, b)
    ensures b in Flatten(rankings) ==> a in Flatten(rankings) && Score(rankings, k, a) > Score(rankings, k, b)
  {
    if rankings != [] {
      var n := |rankings| - 1;
      var r := rankings[n];
      AboveScores(rankings[..n], k, a, b);
      assert r in rankings;
      RankScoreOf(r, k, a);
      RankScoreOf(r, k, b);
      if b in r {
        ShareFalls(k, IndexOf(r, a), IndexOf(r, b));
      }
    }
  }

  /** An item above `b` in every ranking that holds `b` comes before `b` in the fused list. */
  lemma {:induction false} DominanceIsKept<S(!new)>(rankings: seq<seq<S>>, k: nat, fused: seq<(S, real)>, a: S, b: S)
    requires IsFusion(rankings, k, fused) && b in Flatten(rankings)
    requires forall r <- rankings :: NoDuplicates(r) && Above(r, a, b)
    ensures a in Items(fused) && b in Items(fused)
    ensures IndexOf(Items(fused), a) < IndexOf(Items(fused), b)
  {
    AboveScores(rankings, k, a, b);
    DistinctMeans(Flatten(rankings));
    FusionOrder(rankings, k, fused, a, b);
  }

  // ----- Agreement between two engines -----

  lemma {:induction false} TwoScores<S>(r1: seq<S>, r2: seq<S>, k: nat, item: S)
    ensures Score([r1, r2], k, item) == RankScore(r1, k, item) + RankScore(r2, k, item)
    ensures Flatten([r1, r2]) == r1 + r2
  {
    assert [r1, r2][..1] == [r1] && [r1][..0] == [];
    assert Flatten([r1]) == [] + r1;
    assert Score([r1], k, item) == 0.0 + RankScore(r1, k, item);
  }

  lemma {:induction false} TwoLastBeatOneFirst(k: nat, n: nat)
    requires 1 <= n <= k + 1
    ensures 2.0 * Share(k, n - 1) > Share(k, 0)
  {
    ShareFalls(k, n - 1, k);
    var top, deep := (k + 1) as real, (k + k + 1) as real;
    assert 2.0 / deep - 1.0 / top == (2.0 * top - deep) / (deep * top);
  }

  lemma {:induction false} AgreementPrecedes<S(!new)>(r1: seq<S>, r2: seq<S>, k: nat, a: S, b: S)
    requires NoDuplicates(r1) && NoDuplicates(r2) && |r1| <= k + 1 && |r2| <= k + 1
    requires a in r1 && a in r2 && (b in r1 <==> b !in r2)
    ensures Precedes([r1, r2], k, a, b)
  {
    TwoScores(r1, r2, k, a);
    TwoScores(r1, r2, k, b);
    RankScoreOf(r1, k, a);
    RankScoreOf(r2, k, a);
    RankScoreOf(r1, k, b);
    RankScoreOf(r2, k, b);
    ShareFalls(k, IndexOf(r1, a), k);
    ShareFalls(k, IndexOf(r2, a), k);
    ShareFalls(k, 0, if b in r1 then IndexOf(r1, b) else IndexOf(r2, b));
    TwoLastBeatOneFirst(k, k + 1);
    DistinctMeans(r1 + r2);
  }

  /** In two duplicate-free rankings of length at most `n`, an item of both always precedes an item of one. */
  ghost predicate AgreementWins(k: nat, n: nat) {
    forall r1: seq<nat>, r2: seq<nat>, a: nat, b: nat ::
      NoDuplicates(r1) && NoDuplicates(r2) && |r1| <= n && |r2| <= n && a in r1 && a in r2 && (b in r1 <==> b !in r2)
      ==> Precedes([r1, r2], k, a, b)
  }

  /** `0` leads the first ranking only, `1` closes both, the rest is filler. */
  function LoneTop(k: nat): seq<nat> {
    seq(k + 2, i => if i == 0 then 0 else if i == k + 1 then 1 else i + 1)
  }

  function OtherSide(k: nat): seq<nat> {
    seq(k + 2, i => if i == k + 1 then 1 else k + 2 + i)
  }

  /** With one place more than `k + 1` a lone top rank ties with two last places and wins as first seen. */
  lemma {:induction false} LoneTopWins(k: nat)
    ensures NoDuplicates(LoneTop(k)) && NoDuplicates(OtherSide(k))
    ensures 1 in LoneTop(k) && 1 in OtherSide(k) && 0 in LoneTop(k) && 0 !in OtherSide(k)
    ensures !Precedes([LoneTop(k), OtherSide(k)], k, 1, 0)
  {
    var r1, r2 := LoneTop(k), OtherSide(k);
    assert r1[0] == 0 && r1[k + 1] == 1 && r2[k + 1] == 1;
    TwoScores(r1, r2, k, 0);
    TwoScores(r1, r2, k, 1);
    RankScoreOnce(r1, k, 0);
    RankScoreOnce(r1, k, k + 1);
    RankScoreOnce(r2, k, k + 1);
    AbsentScoresZero(r2, k, 0);
    FirstIsFirst(r1 + r2);
  }

  lemma {:induction false} FirstIsFirst<S>(items: seq<S>)
    requires items != []
    ensures Distinct(items) != [] && Distinct(items)[0] == items[0]
  {
    if |items| > 1 {
      FirstIsFirst(items[..|items| - 1]);
    }
  }

  /** Agreement beats any single top rank exactly while the rankings are no longer than `k + 1`. */
  lemma {:induction false} AgreementWinsIff(k: nat, n: nat)
    ensures AgreementWins(k, n) <==> n <= k + 1
  {
    if n <= k + 1 {
      forall r1: seq<nat>, r2: seq<nat>, a: nat, b: nat
        | NoDuplicates(r1) && NoDuplicates(r2) && |r1| <= n && |r2| <= n
          && a in r1 && a in r2 && (b in r1 <==> b !in r2)
        ensures Precedes([r1, r2], k, a, b)
      {
        AgreementPrecedes(r1, r2, k, a, b);
      }
    } else {
      LoneTopWins(k);
    }
  }

  /** For a search page of `limit` hits agreement is certain to win exactly up to 30; the route allows 50. */
  lemma {:induction false} AgreementWinsUpToThirty(limit: nat)
    ensures AgreementWins(RRF_K, limit * CANDIDATE_DEPTH_FACTOR) <==> limit <= 30
  {
    AgreementWinsIff(RRF_K, limit * CANDIDATE_DEPTH_FACTOR);
  }

  // ----- Ties -----

  /** Item `a` stands at place `i` of ranking `r`, and `b` in no ranking before that and at no place before it. */
  ghost predicate SeenFirst<S(!new)>(rankings: seq<seq<S>>, r: nat, i: nat, a: S, b: S) {
    && r < |rankings| && i < |rankings[r]| && rankings[r][i] == a
    && b !in rankings[r][..i + 1] && forall q :: 0 <= q < r ==> b !in rankings[q]
  }

  lemma {:induction false} DistinctGrows<S(!new)>(items: seq<S>, n: nat)
    requires n <= |items|
    ensures Distinct(items[..n]) <= Distinct(items)
    decreases |items| - n
  {
    if n < |items| {
      assert items[..n + 1][..n] == items[..n];
      DistinctGrows(items, n + 1);
    } else {
      assert items[..n] == items;
    }
  }

  lemma {:induction false} NotInFlatten<S(!new)>(rankings: seq<seq<S>>, b: S)
    requires forall q :: 0 <= q < |rankings| ==> b !in rankings[q]
    ensures b !in Flatten(rankings)
  {
    if rankings != [] {
      NotInFlatten(rankings[..|rankings| - 1], b);
    }
  }

  lemma {:induction false} FlattenGrows<S(!new)>(rankings: seq<seq<S>>, r: nat)
    requires r <= |rankings|
    ensures Flatten(rankings[..r]) <= Flatten(rankings)
    decreases |rankings| - r
  {
    if r < |rankings| {
      assert rankings[..r + 1][..r] == rankings[..r];
      FlattenGrows(rankings, r + 1);
    } else {
      assert rankings[..r] == rankings;
    }
  }

  lemma {:induction false} IndexOfIs<S>(items: seq<S>, item: S, i: nat)
    requires NoDuplicates(items) && i < |items| && items[i] == item
    ensures item in items && IndexOf(items, item) == i
  {
  }

  lemma {:induction false} EarlierIsBefore<S(!new)>(items: seq<S>, n: nat, a: S, b: S)
    requires n <= |items| && a in items[..n] && b !in items[..n] && b in items
    ensures var seen := Distinct(items); a in seen && b in seen && IndexOf(seen, a) < IndexOf(seen, b)
  {
    var seen, first := Distinct(items), Distinct(items[..n]);
    DistinctMeans(items[..n]);
    DistinctMeans(items);
    DistinctGrows(items, n);
    var k :| 0 <= k < |first| && first[k] == a;
    IndexOfIs(seen, a, k);
    forall l | 0 <= l < |first| ensures seen[l] != b {
      assert seen[l] == first[l] && first[l] in first;
    }
  }

  lemma {:induction false} SeenFirstComesFirst<S(!new)>(rankings: seq<seq<S>>, r: nat, i: nat, a: S, b: S)
    requires SeenFirst(rankings, r, i, a, b) && b in Flatten(rankings)
    ensures var seen := Distinct(Flatten(rankings)); a in seen && b in seen && IndexOf(seen, a) < IndexOf(seen, b)
  {
    var all, before := Flatten(rankings), Flatten(rankings[..r]);
    var n := |before| + i + 1;
    assert rankings[..r + 1][..r] == rankings[..r];
    FlattenGrows(rankings, r + 1);
    assert Flatten(rankings[..r + 1]) == before + rankings[r];
    var head := before + rankings[r][..i + 1];
    assert all[..n] == head;
    NotInFlatten(rankings[..r], b);
    assert head[n - 1] == a;
    EarlierIsBefore(all, n, a, b);
  }

  /** What places `i` and `j` of two rankings, or one of them, are worth. */
  lemma {:induction false} ScoreOfPlaces<S(!new)>(r1: seq<S>, r2: seq<S>, k: nat, item: S, i: nat, j: nat)
    requires NoDuplicates(r1) && NoDuplicates(r2)
    ensures i < |r1| && r1[i] == item && item !in r2 ==> Score([r1, r2], k, item) == 1.0 / (k + i + 1) as real
    ensures j < |r2| && r2[j] == item && item !in r1 ==> Score([r1, r2], k, item) == 1.0 / (k + j + 1) as real
    ensures i < |r1| && r1[i] == item && j < |r2| && r2[j] == item ==>
              Score([r1, r2], k, item) == 1.0 / (k + i + 1) as real + 1.0 / (k + j + 1) as real
  {
    TwoScores(r1, r2, k, item);
    RankScoreOf(r1, k, item);
    RankScoreOf(r2, k, item);
    if i < |r1| && r1[i] == item {
      IndexOfIs(r1, item, i);
    }
    if j < |r2| && r2[j] == item {
      IndexOfIs(r2, item, j);
    }
  }

  /** Of two items with the same score, the one that the rankings show first comes first. */
  lemma {:induction false} TiesGoToTheFirstSeen<S(!new)>(
      rankings: seq<seq<S>>, k: nat, fused: seq<(S, real)>, r: nat, i: nat, a: S, b: S)
    requires IsFusion(rankings, k, fused) && SeenFirst(rankings, r, i, a, b) && b in Flatten(rankings)
    requires Score(rankings, k, a) == Score(rankings, k, b)
    ensures a in Items(fused) && b in Items(fused) && IndexOf(Items(fused), a) < IndexOf(Items(fused), b)
  {
    SeenFirstComesFirst(rankings, r, i, a, b);
    FusionOrder(rankings, k, fused, a, b);
  }
}
