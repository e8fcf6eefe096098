/** Reciprocal rank fusion over exact rationals (app/services/search.py). */
module Fusion {
  const RRF_K: nat := 60
  const CANDIDATE_DEPTH_FACTOR: nat := 2

  /** What an item at 0-based position `at` of a ranking contributes. */
  function Share(k: nat, at: nat): (r: real)
    ensures r > 0.0
  {
    1.0 / (k + at + 1) as real
  }

  /** Contribution of one ranking: one share per occurrence. */
  function RankScore<S(==)>(ranking: seq<S>, k: nat, item: S): real {
    if ranking == [] then 0.0
    else
      var n := |ranking| - 1;
      RankScore(ranking[..n], k, item) + if ranking[n] == item then Share(k, n) else 0.0
  }

  function Score<S(==)>(rankings: seq<seq<S>>, k: nat, item: S): real {
    if rankings == [] then 0.0
    else
      var n := |rankings| - 1;
      Score(rankings[..n], k, item) + RankScore(rankings[n], k, item)
  }

  /** The distinct items of a list in order of first appearance. */
  function Distinct<S(==)>(items: seq<S>): seq<S> {
    if items == [] then []
    else
      var n := |items| - 1;
      var before := Distinct(items[..n]);
      if items[n] in before then before else before + [items[n]]
  }

  function Flatten<S>(rankings: seq<seq<S>>): seq<S> {
    if rankings == [] then [] else Flatten(rankings[..|rankings| - 1]) + rankings[|rankings| - 1]
  }

  ghost predicate NoDuplicates<S>(items: seq<S>) {
    forall i, j :: 0 <= i < j < |items| ==> items[i] != items[j]
  }

  lemma {:induction false} DistinctMeans<S(!new)>(items: seq<S>)
    ensures NoDuplicates(Distinct(items))
    ensures forall x :: x in Distinct(items) <==> x in items
  {
    if items != [] {
      var n := |items| - 1;
      DistinctMeans(items[..n]);
      assert items == items[..n] + [items[n]];
    }
  }

  /** Position of an item in a list that holds it. */
  function IndexOf<S(==)>(items: seq<S>, item: S): (i: nat)
    requires item in items
    ensures i < |items| && items[i] == item
  {
    if items[0] == item then 0 else 1 + IndexOf(items[1..], item)
  }

  // ----- What a fused list is -----

  /** `a` sorts before `b`: a higher score, or the same score and an earlier first appearance. */
  ghost predicate Precedes<S>(rankings: seq<seq<S>>, k: nat, a: S, b: S) {
    var seen := Distinct(Flatten(rankings));
    && a in seen && b in seen
    && (Score(rankings, k, a) > Score(rankings, k, b)
        || (Score(rankings, k, a) == Score(rankings, k, b) && IndexOf(seen, a) < IndexOf(seen, b)))
  }

  function Items<S>(fused: seq<(S, real)>): seq<S> {
    seq(|fused|, i requires 0 <= i < |fused| => fused[i].0)
  }

  /** A permutation of the union with the exact scores, sorted by score and then by first appearance. */
  ghost predicate IsFusion<S(!new)>(rankings: seq<seq<S>>, k: nat, fused: seq<(S, real)>) {
    && NoDuplicates(Items(fused))
    && (forall x :: x in Items(fused) <==> x in Flatten(rankings))
    && (forall i :: 0 <= i < |fused| ==> fused[i].1 == Score(rankings, k, fused[i].0))
    && (forall i, j :: 0 <= i < j < |fused| ==> Precedes(rankings, k, fused[i].0, fused[j].0))
  }

  /** In a fusion, position is precedence. */
  lemma {:induction false} FusionOrder<S(!new)>(rankings: seq<seq<S>>, k: nat, fused: seq<(S, real)>, a: S, b: S)
    requires IsFusion(rankings, k, fused) && Precedes(rankings, k, a, b)
    ensures a in Items(fused) && b in Items(fused)
    ensures IndexOf(Items(fused), a) < IndexOf(Items(fused), b)
  {
    DistinctMeans(Flatten(rankings));
    var i, j := IndexOf(Items(fused), a), IndexOf(Items(fused), b);
    assert fused[i].0 == a && fused[j].0 == b;
    assert j < i ==> Precedes(rankings, k, fused[j].0, fused[i].0);
  }

  // ----- Fusing -----

  /** One dictionary entry: the item, its score and its first-seen number. */
  datatype Scored<S> = Scored(item: S, score: real, first: nat)

  /** The sort key `(-score, first_seen)`. */
  predicate SortsBefore<S>(a: Scored<S>, b: Scored<S>) {
    a.score > b.score || (a.score == b.score && a.first < b.first)
  }

  function Insert<S>(e: Scored<S>, sorted: seq<Scored<S>>): seq<Scored<S>> {
    if sorted == [] || SortsBefore(e, sorted[0]) then [e] + sorted
    else [sorted[0]] + Insert(e, sorted[1..])
  }

  /** `sorted(...)` by the key. */
  function Sorted<S>(entries: seq<Scored<S>>): seq<Scored<S>> {
    if entries == [] then [] else Insert(entries[|entries| - 1], Sorted(entries[..|entries| - 1]))
  }

  ghost predicate IsSorted<S>(entries: seq<Scored<S>>) {
    forall i, j :: 0 <= i < j < |entries| ==> SortsBefore(entries[i], entries[j])
  }

  lemma {:induction false} InsertSorts<S(!new)>(e: Scored<S>, sorted: seq<Scored<S>>)
    requires IsSorted(sorted) && forall x <- sorted :: x.first != e.first
    ensures IsSorted(Insert(e, sorted))
    ensures forall x :: x in Insert(e, sorted) <==> x == e || x in sorted
  {
    if sorted != [] && !SortsBefore(e, sorted[0]) {
      var rest := Insert(e, sorted[1..]);
      InsertSorts(e, sorted[1..]);
      assert sorted == [sorted[0]] + sorted[1..];
      assert sorted[0] in sorted;
      forall x | x in rest ensures SortsBefore(sorted[0], x) {
        if x != e {
          var i :| 0 <= i < |sorted[1..]| && sorted[1..][i] == x;
          assert SortsBefore(sorted[0], sorted[i + 1]);
        }
      }
    }
  }

  lemma {:induction false} SortedSorts<S(!new)>(entries: seq<Scored<S>>)
    requires forall i, j :: 0 <= i < j < |entries| ==> entries[i].first != entries[j].first
    ensures IsSorted(Sorted(entries))
    ensures forall x :: x in Sorted(entries) <==> x in entries
  {
    if entries != [] {
      var n := |entries| - 1;
      SortedSorts(entries[..n]);
      InsertSorts(entries[n], Sorted(entries[..n]));
      assert entries == entries[..n] + [entries[n]];
    }
  }

  lemma {:induction false} IndexOfAppend<S>(items: seq<S>, x: S, y: S)
    requires y in items || y == x
    ensures y in items + [x]
    ensures IndexOf(items + [x], y) == if y in items then IndexOf(items, y) else |items|
  {
    if items == [] {
      assert items + [x] == [x];
    } else if items[0] != y {
      IndexOfAppend(items[1..], x, y);
      assert (items + [x])[1..] == items[1..] + [x];
    }
  }

  lemma {:induction false} AbsentScoresZero<S>(ranking: seq<S>, k: nat, item: S)
    requires item !in ranking
    ensures RankScore(ranking, k, item) == 0.0
  {
    if ranking != [] {
      AbsentScoresZero(ranking[..|ranking| - 1], k, item);
    }
  }

  lemma {:induction false} UnseenScoresZero<S>(rankings: seq<seq<S>>, k: nat, item: S)
    requires item !in Flatten(rankings)
    ensures Score(rankings, k, item) == 0.0
  {
    if rankings != [] {
      UnseenScoresZero(rankings[..|rankings| - 1], k, item);
      AbsentScoresZero(rankings[|rankings| - 1], k, item);
    }
  }

  /** The two dictionaries of the fusion; `seen` is the key order both keep. */
  datatype Dicts<!S(==)> = Dicts(scores: map<S, real>, firstSeen: map<S, nat>, seen: seq<S>)

  /** `scores[item] = scores.get(item, 0.0) + share` and `first_seen.setdefault(item, len(first_seen))`. */
  function Record<S(==)>(d: Dicts<S>, item: S, share: real): Dicts<S> {
    Dicts(
      d.scores[item := (if item in d.scores then d.scores[item] else 0.0) + share],
      if item in d.firstSeen then d.firstSeen else d.firstSeen[item := |d.firstSeen|],
      NoteKey(d.seen, item))
  }

  function NoteKey<S(==)>(seen: seq<S>, item: S): seq<S> {
    if item in seen then seen else seen + [item]
  }

  ghost predicate ScoresAre<S(!new)>(scores: map<S, real>, seen: seq<S>, total: S -> real) {
    && (forall x :: x in scores <==> x in seen)
    && (forall x <- seen :: scores[x] == total(x))
  }

  ghost predicate NumbersAre<S(!new)>(firstSeen: map<S, nat>, seen: seq<S>) {
    && |firstSeen| == |seen|
    && (forall x :: x in firstSeen <==> x in seen)
    && (forall x <- seen :: firstSeen[x] == IndexOf(seen, x))
  }

  /** The dictionaries hold the seen items, their totals and their first-seen numbers. */
  ghost predicate Tallied<S(!new)>(d: Dicts<S>, total: S -> real) {
    ScoresAre(d.scores, d.seen, total) && NumbersAre(d.firstSeen, d.seen)
  }

  lemma {:induction false} NoteKeyMembers<S(!new)>(seen: seq<S>, item: S)
    ensures forall x :: x in NoteKey(seen, item) <==> x in seen || x == item
  {
  }

  lemma {:induction false} ScoreRecorded<S(!new)>(
      scores: map<S, real>, seen: seq<S>, total: S -> real, item: S, share: real, total': S -> real)
    requires ScoresAre(scores, seen, total)
    requires item !in seen ==> total(item) == 0.0
    requires forall x :: total'(x) == total(x) + if x == item then share else 0.0
    ensures ScoresAre(
              scores[item := (if item in scores then scores[item] else 0.0) + share], NoteKey(seen, item), total')
  {
    NoteKeyMembers(seen, item);
  }

  lemma {:induction false} NumberRecorded<S(!new)>(firstSeen: map<S, nat>, seen: seq<S>, item: S)
    requires NumbersAre(firstSeen, seen)
    ensures NumbersAre(if item in firstSeen then firstSeen else firstSeen[item := |firstSeen|], NoteKey(seen, item))
  {
    if item !in seen {
      NoteKeyMembers(seen, item);
      forall x | x in seen || x == item
        ensures IndexOf(seen + [item], x) == if x in seen then IndexOf(seen, x) else |seen|
      {
        IndexOfAppend(seen, item, x);
      }
    }
  }

  lemma {:induction false} TallyShare<S(!new)>(d: Dicts<S>, total: S -> real, item: S, share: real, total': S -> real)
    requires Tallied(d, total)
    requires item !in d.seen ==> total(item) == 0.0
    requires forall x :: total'(x) == total(x) + if x == item then share else 0.0
    ensures Tallied(Record(d, item, share), total')
  {
    ScoreRecorded(d.scores, d.seen, total, item, share, total');
    NumberRecorded(d.firstSeen, d.seen, item);
  }

  /** What the rankings in `done` and the part of the next one contribute to each item. */
  ghost function Total<S>(done: seq<seq<S>>, part: seq<S>, k: nat): S -> real {
    x => Score(done, k, x) + RankScore(part, k, x)
  }

  lemma {:induction false} TotalOneMore<S(!new)>(done: seq<seq<S>>, part: seq<S>, k: nat, item: S)
    ensures forall x :: Total(done, part + [item], k)(x) ==
                        Total(done, part, k)(x) + if x == item then Share(k, |part|) else 0.0
    ensures item !in Flatten(done) + part ==> Total(done, part, k)(item) == 0.0
    ensures Distinct(Flatten(done) + (part + [item])) == NoteKey(Distinct(Flatten(done) + part), item)
  {
    forall x
      ensures RankScore(part + [item], k, x) == RankScore(part, k, x) + if x == item then Share(k, |part|) else 0.0
    {
      assert (part + [item])[..|part|] == part;
    }
    if item !in Flatten(done) + part {
      UnseenScoresZero(done, k, item);
      AbsentScoresZero(part, k, item);
    }
    assert Flatten(done) + (part + [item]) == (Flatten(done) + part) + [item];
  }

  lemma {:induction false} RankingDone<S(!new)>(done: seq<seq<S>>, ranking: seq<S>, k: nat)
    ensures forall x :: Total(done + [ranking], [], k)(x) == Total(done, ranking, k)(x)
    ensures Flatten(done + [ranking]) + [] == Flatten(done) + ranking
  {
    assert (done + [ranking])[..|done|] == done;
  }

  /** The dictionaries after the rankings in `done` and the part of the next one. */
  ghost predicate TalliedUpTo<S(!new)>(d: Dicts<S>, done: seq<seq<S>>, part: seq<S>, k: nat) {
    d.seen == Distinct(Flatten(done) + part) && Tallied(d, Total(done, part, k))
  }

  lemma {:induction false} TallyItem<S(!new)>(d: Dicts<S>, done: seq<seq<S>>, ranking: seq<S>, k: nat, at: nat)
    requires at < |ranking| && TalliedUpTo(d, done, ranking[..at], k)
    ensures TalliedUpTo(Record(d, ranking[at], Share(k, at)), done, ranking[..at + 1], k)
  {
    var part, item := ranking[..at], ranking[at];
    assert ranking[..at + 1] == part + [item];
    TotalOneMore(done, part, k, item);
    DistinctMeans(Flatten(done) + part);
    TallyShare(d, Total(done, part, k), item, Share(k, at), Total(done, part + [item], k));
  }

  lemma {:induction false} TallyNextRanking<S(!new)>(d: Dicts<S>, rankings: seq<seq<S>>, i: nat, k: nat)
    requires i < |rankings| && TalliedUpTo(d, rankings[..i], rankings[i][..|rankings[i]|], k)
    ensures TalliedUpTo(d, rankings[..i + 1], [], k)
  {
    var ranking := rankings[i];
    assert ranking[..|ranking|] == ranking && rankings[..i + 1] == rankings[..i] + [ranking];
    RankingDone(rankings[..i], ranking, k);
  }

  method Tally<S(==, !new)>(rankings: seq<seq<S>>, k: nat) returns (d: Dicts<S>)
    ensures TalliedUpTo(d, rankings, [], k)
  {
    d := Dicts(map[], map[], []);
    for i := 0 to |rankings|
      invariant TalliedUpTo(d, rankings[..i], [], k)
    {
      var ranking := rankings[i];
      for j := 0 to |ranking|
        invariant TalliedUpTo(d, rankings[..i], ranking[..j], k)
      {
        TallyItem(d, rankings[..i], ranking, k, j);
        d := Record(d, ranking[j], Share(k, j));
      }
      TallyNextRanking(d, rankings, i, k);
    }
    assert rankings[..|rankings|] == rankings;
  }

  method RrfFuse<S(==, !new)>(rankings: seq<seq<S>>, k: nat) returns (fused: seq<(S, real)>)
    ensures IsFusion(rankings, k, fused)
  {
    var d := Tally(rankings, k);
    var entries := seq(|d.seen|, i requires 0 <= i < |d.seen| =>
      Scored(d.seen[i], d.scores[d.seen[i]], d.firstSeen[d.seen[i]]));
    var ordered := Sorted(entries);
    fused := seq(|ordered|, i requires 0 <= i < |ordered| => (ordered[i].item, ordered[i].score));
    EntriesAreExact(rankings, k, d, entries);
    SortedEntriesFuse(rankings, k, entries, fused);
  }

  /** Scored `i` carries the `i`-th seen item, its score and its number. */
  ghost predicate ExactEntries<S>(rankings: seq<seq<S>>, k: nat, entries: seq<Scored<S>>) {
    var seen := Distinct(Flatten(rankings));
    && |entries| == |seen|
    && forall i :: 0 <= i < |seen| ==> entries[i] == Scored(seen[i], Score(rankings, k, seen[i]), i)
  }

  lemma {:induction false} EntriesAreExact<S(!new)>(rankings: seq<seq<S>>, k: nat, d: Dicts<S>, entries: seq<Scored<S>>)
    requires TalliedUpTo(d, rankings, [], k)
    requires |entries| == |d.seen|
    requires forall i :: 0 <= i < |entries| ==>
               entries[i] == Scored(d.seen[i], d.scores[d.seen[i]], d.firstSeen[d.seen[i]])
    ensures ExactEntries(rankings, k, entries)
  {
    assert Flatten(rankings) + [] == Flatten(rankings);
    DistinctMeans(Flatten(rankings));
    forall i | 0 <= i < |d.seen| ensures entries[i] == Scored(d.seen[i], Score(rankings, k, d.seen[i]), i) {
      assert d.seen[i] in d.seen;
      assert Total(rankings, [], k)(d.seen[i]) == Score(rankings, k, d.seen[i]) + RankScore([], k, d.seen[i]);
    }
  }

  lemma {:induction false} SortedEntriesFuse<S(!new)>(
      rankings: seq<seq<S>>, k: nat, entries: seq<Scored<S>>, fused: seq<(S, real)>)
    requires ExactEntries(rankings, k, entries)
    requires |fused| == |Sorted(entries)|
    requires forall i :: 0 <= i < |fused| ==> fused[i] == (Sorted(entries)[i].item, Sorted(entries)[i].score)
    ensures IsFusion(rankings, k, fused)
  {
    var ordered, seen := Sorted(entries), Distinct(Flatten(rankings));
    DistinctMeans(Flatten(rankings));
    SortedSorts(entries);
    forall i | 0 <= i < |ordered|
      ensures ordered[i].item in seen && ordered[i].first == IndexOf(seen, ordered[i].item)
      ensures ordered[i].score == Score(rankings, k, ordered[i].item)
    {
      assert ordered[i] in entries;
    }
    forall i, j | 0 <= i < j < |fused|
      ensures Precedes(rankings, k, fused[i].0, fused[j].0) && Items(fused)[i] != Items(fused)[j]
    {
      assert SortsBefore(ordered[i], ordered[j]);
    }
    forall x | x in seen ensures x in Items(fused) {
      assert entries[IndexOf(seen, x)] in ordered;
      var j :| 0 <= j < |ordered| && ordered[j] == entries[IndexOf(seen, x)];
      assert Items(fused)[j] == x;
    }
    forall x | x in Items(fused) ensures x in seen {
      var j :| 0 <= j < |fused| && Items(fused)[j] == x;
      assert ordered[j].item == x;
    }
  }
}
