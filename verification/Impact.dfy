/** Candidate obligations and model-reported impacts of one change (app/services/impact.py). */
module Impact {
  import opened Wrappers
  import opened Extraction

  const CANDIDATE_LIMIT: int := 20
  const EXCERPT_LIMIT: nat := 1500

  /** Character range of a retrieved chunk. */
  datatype Hit = Hit(charStart: nat, charEnd: nat)

  predicate Overlaps(c: Citation, h: Hit) {
    c.charStart < h.charEnd && h.charStart < c.charEnd
  }

  // ----- Selection, declaratively -----

  /** Index of the first hit the citation overlaps, or the number of hits. */
  function FirstHit(c: Citation, hits: seq<Hit>): (n: nat)
    ensures n <= |hits|
  {
    if hits == [] || Overlaps(c, hits[0]) then 0 else 1 + FirstHit(c, hits[1..])
  }

  lemma {:induction false} FirstHitMeans(c: Citation, hits: seq<Hit>)
    ensures forall k :: 0 <= k < FirstHit(c, hits) ==> !Overlaps(c, hits[k])
    ensures FirstHit(c, hits) < |hits| ==> Overlaps(c, hits[FirstHit(c, hits)])
  {
    if hits != [] && !Overlaps(c, hits[0]) {
      FirstHitMeans(c, hits[1..]);
    }
  }

  function HitOf(obligations: seq<Obligation>, hits: seq<Hit>, i: nat): nat
    requires i < |obligations|
  {
    FirstHit(obligations[i].citation, hits)
  }

  /** Positions among the first `m` obligations whose first hit is `n`. */
  function FirstAt(obligations: seq<Obligation>, hits: seq<Hit>, n: nat, m: nat): seq<nat>
    requires m <= |obligations|
  {
    if m == 0 then []
    else if HitOf(obligations, hits, m - 1) == n then FirstAt(obligations, hits, n, m - 1) + [m - 1]
    else FirstAt(obligations, hits, n, m - 1)
  }

  /** Positions whose first hit is among the first `n`, by hit and then by position. */
  function UpToHit(obligations: seq<Obligation>, hits: seq<Hit>, n: nat): seq<nat> {
    if n == 0 then [] else UpToHit(obligations, hits, n - 1) + FirstAt(obligations, hits, n - 1, |obligations|)
  }

  function Candidates(obligations: seq<Obligation>, hits: seq<Hit>): seq<nat> {
    UpToHit(obligations, hits, |hits|)
  }

  /** A limit below one never stops the selection. */
  function Capped(positions: seq<nat>, limit: int): seq<nat> {
    if 1 <= limit < |positions| then positions[..limit] else positions
  }

  function At(obligations: seq<Obligation>, positions: seq<nat>): seq<Obligation>
    requires forall r :: 0 <= r < |positions| ==> positions[r] < |obligations|
  {
    seq(|positions|, r requires 0 <= r < |positions| => obligations[positions[r]])
  }

  /** Earlier first hit, or the same first hit and an earlier position. */
  predicate RankedBefore(obligations: seq<Obligation>, hits: seq<Hit>, i: nat, j: nat) {
    i < |obligations| && j < |obligations| &&
    (HitOf(obligations, hits, i) < HitOf(obligations, hits, j)
     || (HitOf(obligations, hits, i) == HitOf(obligations, hits, j) && i < j))
  }

  ghost predicate Ranked(obligations: seq<Obligation>, hits: seq<Hit>, positions: seq<nat>) {
    forall r, s :: 0 <= r < s < |positions| ==> RankedBefore(obligations, hits, positions[r], positions[s])
  }

  lemma {:induction false} FirstAtMeans(obligations: seq<Obligation>, hits: seq<Hit>, n: nat, m: nat)
    requires m <= |obligations|
    ensures forall i: nat :: i in FirstAt(obligations, hits, n, m) <==> i < m && HitOf(obligations, hits, i) == n
    ensures Ranked(obligations, hits, FirstAt(obligations, hits, n, m))
  {
    if m > 0 {
      var before, positions := FirstAt(obligations, hits, n, m - 1), FirstAt(obligations, hits, n, m);
      FirstAtMeans(obligations, hits, n, m - 1);
      forall r, s | 0 <= r < s < |positions| ensures RankedBefore(obligations, hits, positions[r], positions[s]) {
        assert positions[r] == before[r] && before[r] in before;
      }
    }
  }

  lemma {:induction false} UpToHitMeans(obligations: seq<Obligation>, hits: seq<Hit>, n: nat)
    ensures forall i: nat :: i in UpToHit(obligations, hits, n) <==>
                        i < |obligations| && HitOf(obligations, hits, i) < n
    ensures Ranked(obligations, hits, UpToHit(obligations, hits, n))
  {
    if n > 0 {
      var before, now := UpToHit(obligations, hits, n - 1), FirstAt(obligations, hits, n - 1, |obligations|);
      UpToHitMeans(obligations, hits, n - 1);
      FirstAtMeans(obligations, hits, n - 1, |obligations|);
      var positions := before + now;
      forall r, s | 0 <= r < s < |positions| ensures RankedBefore(obligations, hits, positions[r], positions[s]) {
        assert r < |before| ==> before[r] in before;
        assert s >= |before| ==> now[s - |before|] in now;
      }
    }
  }

  predicate OverlapsSome(c: Citation, hits: seq<Hit>) {
    exists h <- hits :: Overlaps(c, h)
  }

  /** The candidates are exactly the obligations that overlap some hit, each once, in retrieval order. */
  lemma {:induction false} CandidatesAreExact(obligations: seq<Obligation>, hits: seq<Hit>)
    ensures Ranked(obligations, hits, Candidates(obligations, hits))
    ensures forall i: nat :: i in Candidates(obligations, hits) <==>
                        i < |obligations| && OverlapsSome(obligations[i].citation, hits)
  {
    UpToHitMeans(obligations, hits, |hits|);
    forall i: nat | i < |obligations|
      ensures HitOf(obligations, hits, i) < |hits| <==> OverlapsSome(obligations[i].citation, hits)
    {
      FirstHitMeans(obligations[i].citation, hits);
      if HitOf(obligations, hits, i) < |hits| {
        assert hits[HitOf(obligations, hits, i)] in hits;
      }
    }
  }

  lemma {:induction false} CandidatesInRange(obligations: seq<Obligation>, hits: seq<Hit>, limit: int)
    ensures var positions := Capped(Candidates(obligations, hits), limit);
            forall r :: 0 <= r < |positions| ==> positions[r] < |obligations|
  {
    CandidatesAreExact(obligations, hits);
    var all := Candidates(obligations, hits);
    forall r | 0 <= r < |all| ensures all[r] < |obligations| {
      assert all[r] in all;
    }
  }

  /** The first `limit` candidates in retrieval order. */
  function Selected(obligations: seq<Obligation>, hits: seq<Hit>, limit: int): seq<Obligation> {
    CandidatesInRange(obligations, hits, limit);
    At(obligations, Capped(Candidates(obligations, hits), limit))
  }

  /** A positive limit caps the selection; a limit below one is no limit, as a single overlapping obligation shows. */
  lemma {:induction false} LimitCapsExactly(limit: int)
    ensures (forall obligations, hits :: |Selected(obligations, hits, limit)| <= limit) <==> limit >= 1
  {
    if limit >= 1 {
      forall obligations, hits ensures |Selected(obligations, hits, limit)| <= limit {
        CandidatesInRange(obligations, hits, limit);
      }
    } else {
      var obligations, hits := [Obligation("", "", None, Citation(0, 1), 1.0)], [Hit(0, 1)];
      CandidatesAreExact(obligations, hits);
      assert hits[0] in hits && Overlaps(obligations[0].citation, hits[0]);
      assert 0 in Candidates(obligations, hits);
      CandidatesInRange(obligations, hits, limit);
      assert |Selected(obligations, hits, limit)| == |Candidates(obligations, hits)| > 0;
    }
  }

  /**
   * The selected obligations stand at overlapping positions in retrieval order. An overlapping one is left out only
   * when the limit is reached, and then all selected ones rank before it.
   */
  lemma {:induction false} SelectionIsExact(obligations: seq<Obligation>, hits: seq<Hit>, limit: int)
      returns (positions: seq<nat>)
    ensures |Selected(obligations, hits, limit)| == |positions| && Ranked(obligations, hits, positions)
    ensures forall r :: 0 <= r < |positions| ==>
              && positions[r] < |obligations| && Selected(obligations, hits, limit)[r] == obligations[positions[r]]
              && OverlapsSome(obligations[positions[r]].citation, hits)
    ensures forall i: nat :: i < |obligations| && OverlapsSome(obligations[i].citation, hits) && i !in positions ==>
              && 1 <= limit == |positions|
              && forall r :: 0 <= r < |positions| ==> RankedBefore(obligations, hits, positions[r], i)
  {
    CandidatesAreExact(obligations, hits);
    CandidatesInRange(obligations, hits, limit);
    var all := Candidates(obligations, hits);
    positions := Capped(all, limit);
    forall r | 0 <= r < |positions| ensures OverlapsSome(obligations[positions[r]].citation, hits) {
      assert all[r] in all;
    }
    forall i: nat | i < |obligations| && OverlapsSome(obligations[i].citation, hits) && i !in positions
      ensures 1 <= limit == |positions|
      ensures forall r :: 0 <= r < |positions| ==> RankedBefore(obligations, hits, positions[r], i)
    {
      assert i in all;
      var k :| 0 <= k < |all| && all[k] == i;
      forall r | 0 <= r < |positions| ensures all[r] != i {
        assert positions[r] == all[r];
      }
    }
  }

  // ----- Selection with early return -----

  /** What is selected when obligation `m` of hit `n` is next. */
  function Reached(obligations: seq<Obligation>, hits: seq<Hit>, n: nat, m: nat): seq<nat>
    requires m <= |obligations|
  {
    UpToHit(obligations, hits, n) + FirstAt(obligations, hits, n, m)
  }

  lemma {:induction false} FirstAtGrows(obligations: seq<Obligation>, hits: seq<Hit>, n: nat, m: nat, to: nat)
    requires m <= to <= |obligations|
    ensures FirstAt(obligations, hits, n, m) <= FirstAt(obligations, hits, n, to)
  {
    if m < to {
      FirstAtGrows(obligations, hits, n, m, to - 1);
    }
  }

  lemma {:induction false} UpToHitGrows(obligations: seq<Obligation>, hits: seq<Hit>, n: nat, to: nat)
    requires n <= to
    ensures UpToHit(obligations, hits, n) <= UpToHit(obligations, hits, to)
  {
    if n < to {
      UpToHitGrows(obligations, hits, n, to - 1);
    }
  }

  lemma {:induction false} ReachedIsPrefix(obligations: seq<Obligation>, hits: seq<Hit>, n: nat, m: nat)
    requires n < |hits| && m <= |obligations|
    ensures Reached(obligations, hits, n, m) <= Candidates(obligations, hits)
  {
    FirstAtGrows(obligations, hits, n, m, |obligations|);
    UpToHitGrows(obligations, hits, n + 1, |hits|);
    var a, b := UpToHit(obligations, hits, n), FirstAt(obligations, hits, n, m);
    assert a + b <= a + FirstAt(obligations, hits, n, |obligations|);
  }

  lemma {:induction false} ReachedInRange(obligations: seq<Obligation>, hits: seq<Hit>, n: nat, m: nat)
    requires m <= |obligations|
    ensures forall i: nat :: i in Reached(obligations, hits, n, m) <==>
              i < |obligations| && (HitOf(obligations, hits, i) < n || (HitOf(obligations, hits, i) == n && i < m))
  {
    UpToHitMeans(obligations, hits, n);
    FirstAtMeans(obligations, hits, n, m);
  }

  lemma {:induction false} ReachedStep(obligations: seq<Obligation>, hits: seq<Hit>, n: nat, m: nat)
    requires n < |hits| && m < |obligations|
    ensures m in Reached(obligations, hits, n, m) <==> HitOf(obligations, hits, m) < n
    ensures HitOf(obligations, hits, m) >= n ==>
              (Overlaps(obligations[m].citation, hits[n]) <==> HitOf(obligations, hits, m) == n)
    ensures Reached(obligations, hits, n, m + 1) ==
            if HitOf(obligations, hits, m) == n then Reached(obligations, hits, n, m) + [m]
            else Reached(obligations, hits, n, m)
  {
    ReachedInRange(obligations, hits, n, m);
    FirstHitMeans(obligations[m].citation, hits);
  }

  /** The selected list and the picked set, seen by position. */
  ghost predicate Mirrors(
      obligations: seq<Obligation>, selected: seq<Obligation>, picked: set<int>, positions: seq<nat>) {
    && (forall i: nat :: i in picked <==> i in positions)
    && |selected| == |positions|
    && forall r :: 0 <= r < |positions| ==> positions[r] < |obligations| && selected[r] == obligations[positions[r]]
  }

  lemma {:induction false} Pick(
      obligations: seq<Obligation>, hits: seq<Hit>, selected: seq<Obligation>, picked: set<int>, n: nat, m: nat)
    requires n < |hits| && m < |obligations|
    requires Mirrors(obligations, selected, picked, Reached(obligations, hits, n, m))
    requires m !in picked && Overlaps(obligations[m].citation, hits[n])
    ensures Mirrors(obligations, selected + [obligations[m]], picked + {m}, Reached(obligations, hits, n, m + 1))
  {
    ReachedStep(obligations, hits, n, m);
  }

  lemma {:induction false} Skip(
      obligations: seq<Obligation>, hits: seq<Hit>, selected: seq<Obligation>, picked: set<int>, n: nat, m: nat)
    requires n < |hits| && m < |obligations|
    requires Mirrors(obligations, selected, picked, Reached(obligations, hits, n, m))
    requires m in picked || !Overlaps(obligations[m].citation, hits[n])
    ensures Mirrors(obligations, selected, picked, Reached(obligations, hits, n, m + 1))
  {
    ReachedStep(obligations, hits, n, m);
  }

  lemma {:induction false} HitDone(obligations: seq<Obligation>, hits: seq<Hit>, n: nat)
    ensures Reached(obligations, hits, n, |obligations|) == Reached(obligations, hits, n + 1, 0)
  {
  }

  lemma {:induction false} StoppedAtLimit(
      obligations: seq<Obligation>, hits: seq<Hit>, limit: int, selected: seq<Obligation>, picked: set<int>,
      n: nat, m: nat)
    requires n < |hits| && m <= |obligations| && 1 <= limit == |selected|
    requires Mirrors(obligations, selected, picked, Reached(obligations, hits, n, m))
    ensures selected == Selected(obligations, hits, limit)
  {
    ReachedIsPrefix(obligations, hits, n, m);
    assert Reached(obligations, hits, n, m) == Capped(Candidates(obligations, hits), limit);
  }

  lemma {:induction false} RanThrough(
      obligations: seq<Obligation>, hits: seq<Hit>, limit: int, selected: seq<Obligation>, picked: set<int>)
    requires 1 <= limit ==> |selected| < limit
    requires Mirrors(obligations, selected, picked, Reached(obligations, hits, |hits|, 0))
    ensures selected == Selected(obligations, hits, limit)
  {
    assert Reached(obligations, hits, |hits|, 0) == Candidates(obligations, hits);
    assert Capped(Candidates(obligations, hits), limit) == Candidates(obligations, hits);
  }

  method SelectCandidates(obligations: seq<Obligation>, hits: seq<Hit>, limit: int) returns (selected: seq<Obligation>)
    ensures selected == Selected(obligations, hits, limit)
  {
    selected := [];
    var picked: set<int> := {};
    for n := 0 to |hits|
      invariant 1 <= limit ==> |selected| < limit
      invariant Mirrors(obligations, selected, picked, Reached(obligations, hits, n, 0))
    {
      for m := 0 to |obligations|
        invariant 1 <= limit ==> |selected| < limit
        invariant Mirrors(obligations, selected, picked, Reached(obligations, hits, n, m))
      {
        if m in picked {
          Skip(obligations, hits, selected, picked, n, m);
          continue;
        }
        if Overlaps(obligations[m].citation, hits[n]) {
          Pick(obligations, hits, selected, picked, n, m);
          picked := picked + {m};
          selected := selected + [obligations[m]];
          if |selected| == limit {
            StoppedAtLimit(obligations, hits, limit, selected, picked, n, m + 1);
            return;
          }
        } else {
          Skip(obligations, hits, selected, picked, n, m);
        }
      }
      HitDone(obligations, hits, n);
    }
    RanThrough(obligations, hits, limit, selected, picked);
  }

  // ----- Model-reported impacts -----

  datatype Mapped = Mapped(index: int, confidence: real)

  datatype MappingReply = Mapping(impacts: seq<Mapped>) | MappingFailure(error: string)

  predicate InRange(m: Mapped, count: nat) {
    0 <= m.index < count
  }

  predicate Names(mentions: seq<Mapped>, index: int) {
    exists r :: 0 <= r < |mentions| && mentions[r].index == index
  }

  /** The mentions that name an index for the first time. */
  function FirstMentions(impacts: seq<Mapped>): seq<Mapped> {
    if impacts == [] then []
    else
      var n := |impacts| - 1;
      var before := FirstMentions(impacts[..n]);
      if Names(impacts[..n], impacts[n].index) then before else before + [impacts[n]]
  }

  lemma {:induction false} NamesOneMore(mentions: seq<Mapped>, m: Mapped, index: int)
    ensures Names(mentions + [m], index) <==> Names(mentions, index) || m.index == index
  {
    if Names(mentions, index) {
      var r :| 0 <= r < |mentions| && mentions[r].index == index;
      assert (mentions + [m])[r].index == index;
    }
    assert (mentions + [m])[|mentions|] == m;
  }

  /** Exactly the named indices are kept, each once. */
  lemma {:induction false} FirstMentionsMeans(impacts: seq<Mapped>)
    ensures forall index :: Names(FirstMentions(impacts), index) <==> Names(impacts, index)
    ensures forall m <- FirstMentions(impacts) :: m in impacts
    ensures forall r, s :: 0 <= r < s < |FirstMentions(impacts)|
              ==> FirstMentions(impacts)[r].index != FirstMentions(impacts)[s].index
  {
    if impacts != [] {
      var n := |impacts| - 1;
      var before := FirstMentions(impacts[..n]);
      FirstMentionsMeans(impacts[..n]);
      assert impacts == impacts[..n] + [impacts[n]];
      forall index ensures Names(FirstMentions(impacts), index) <==> Names(impacts, index) {
        NamesOneMore(impacts[..n], impacts[n], index);
        NamesOneMore(before, impacts[n], index);
      }
      forall r | 0 <= r < |before| ensures Names(before, before[r].index) {
      }
    }
  }

  ghost predicate AllInRange(mentions: seq<Mapped>, count: nat) {
    forall r :: 0 <= r < |mentions| ==> InRange(mentions[r], count)
  }

  function ImpactsOf(candidates: seq<Obligation>, mentions: seq<Mapped>): seq<(Obligation, real)>
    requires AllInRange(mentions, |candidates|)
  {
    seq(|mentions|, r requires 0 <= r < |mentions| =>
      assert InRange(mentions[r], |candidates|); (candidates[mentions[r].index], mentions[r].confidence))
  }

  /** The reply is refused exactly when it names an index outside the list; repeats are dropped. */
  function MapReply(candidates: seq<Obligation>, reply: MappingReply): Result<seq<(Obligation, real)>, string> {
    if candidates == [] then Ok([])
    else
      match reply
      case MappingFailure(error) => Err(error)
      case Mapping(impacts) =>
        if forall m <- impacts :: InRange(m, |candidates|) then
          FirstMentionsMeans(impacts);
          Ok(ImpactsOf(candidates, FirstMentions(impacts)))
        else Err("model output failed impact-index validation")
  }

  ghost predicate SeenAre(seen: set<int>, impacts: seq<Mapped>) {
    forall index :: index in seen <==> Names(impacts, index)
  }

  /** One more reported impact: kept unless its index was seen. */
  lemma {:induction false} MentionStep(impacts: seq<Mapped>, i: nat, seen: set<int>, count: nat)
    requires i < |impacts| && SeenAre(seen, impacts[..i])
    ensures SeenAre(seen + {impacts[i].index}, impacts[..i + 1])
    ensures AllInRange(impacts[..i + 1], count) <==> AllInRange(impacts[..i], count) && InRange(impacts[i], count)
    ensures FirstMentions(impacts[..i + 1]) ==
            if impacts[i].index in seen then FirstMentions(impacts[..i]) else FirstMentions(impacts[..i]) + [impacts[i]]
  {
    assert impacts[..i + 1] == impacts[..i] + [impacts[i]] && impacts[..i + 1][..i] == impacts[..i];
    if AllInRange(impacts[..i + 1], count) {
      assert InRange(impacts[..i + 1][i], count);
      forall r | 0 <= r < i ensures InRange(impacts[..i][r], count) {
        assert InRange(impacts[..i + 1][r], count);
      }
    }
    forall index ensures index in seen + {impacts[i].index} <==> Names(impacts[..i + 1], index) {
      NamesOneMore(impacts[..i], impacts[i], index);
    }
  }

  lemma {:induction false} OneMoreImpact(candidates: seq<Obligation>, mentions: seq<Mapped>, m: Mapped)
    requires AllInRange(mentions, |candidates|) && InRange(m, |candidates|)
    ensures AllInRange(mentions + [m], |candidates|)
    ensures ImpactsOf(candidates, mentions + [m]) ==
            ImpactsOf(candidates, mentions) + [(candidates[m.index], m.confidence)]
  {
  }

  method MapChangeImpacts(
      candidates: seq<Obligation>, reply: MappingReply) returns (r: Result<seq<(Obligation, real)>, string>)
    ensures r == MapReply(candidates, reply)
  {
    if candidates == [] {
      return Ok([]);
    }
    if reply.MappingFailure? {
      return Err(reply.error);
    }
    var impacts: seq<(Obligation, real)> := [];
    var seen: set<int> := {};
    ghost var mentions: seq<Mapped> := [];
    for i := 0 to |reply.impacts|
      invariant mentions == FirstMentions(reply.impacts[..i])
      invariant AllInRange(reply.impacts[..i], |candidates|)
      invariant SeenAre(seen, reply.impacts[..i])
      invariant AllInRange(mentions, |candidates|)
      invariant impacts == ImpactsOf(candidates, mentions)
    {
      MentionStep(reply.impacts, i, seen, |candidates|);
      var mapped := reply.impacts[i];
      if !InRange(mapped, |candidates|) {
        assert mapped in reply.impacts;
        return Err("model output failed impact-index validation");
      }
      if mapped.index in seen {
        assert seen + {mapped.index} == seen;
        continue;
      }
      OneMoreImpact(candidates, mentions, mapped);
      seen := seen + {mapped.index};
      impacts := impacts + [(candidates[mapped.index], mapped.confidence)];
      mentions := mentions + [mapped];
    }
    assert reply.impacts[..|reply.impacts|] == reply.impacts;
    return Ok(impacts);
  }

  // ----- What a mapping reply comes to -----

  /** Mention `k` names its index for the first time. */
  predicate IsFirst(impacts: seq<Mapped>, k: nat) {
    k < |impacts| && forall j :: 0 <= j < k ==> impacts[j].index != impacts[k].index
  }

  /** `at` are the positions of the first mentions, in order. */
  ghost predicate AreFirsts(impacts: seq<Mapped>, at: seq<nat>) {
    && (forall r, s :: 0 <= r < s < |at| ==> at[r] < at[s])
    && (forall k: nat :: k in at <==> IsFirst(impacts, k))
  }

  lemma {:induction false} FirstStays(impacts: seq<Mapped>, m: Mapped, k: nat)
    ensures k < |impacts| ==> (IsFirst(impacts + [m], k) <==> IsFirst(impacts, k))
    ensures k == |impacts| ==> (IsFirst(impacts + [m], k) <==> !Names(impacts, m.index))
  {
    var longer := impacts + [m];
    assert forall j :: 0 <= j < |impacts| ==> longer[j] == impacts[j];
  }

  lemma {:induction false} FirstsOneMore(impacts: seq<Mapped>, m: Mapped, at: seq<nat>) returns (more: seq<nat>)
    requires AreFirsts(impacts, at)
    ensures AreFirsts(impacts + [m], more)
    ensures more == if Names(impacts, m.index) then at else at + [|impacts|]
  {
    var n := |impacts|;
    more := if Names(impacts, m.index) then at else at + [n];
    forall r | 0 <= r < |at| ensures at[r] < n {
      assert at[r] in at && IsFirst(impacts, at[r]);
    }
    forall k: nat ensures k in more <==> IsFirst(impacts + [m], k) {
      FirstStays(impacts, m, k);
    }
  }

  lemma {:induction false} FirstMentionsAt(impacts: seq<Mapped>) returns (at: seq<nat>)
    ensures AreFirsts(impacts, at) && |FirstMentions(impacts)| == |at|
    ensures forall r :: 0 <= r < |at| ==> at[r] < |impacts| && FirstMentions(impacts)[r] == impacts[at[r]]
  {
    if impacts == [] {
      at := [];
    } else {
      var init, m := impacts[..|impacts| - 1], impacts[|impacts| - 1];
      var before := FirstMentionsAt(init);
      at := FirstsOneMore(init, m, before);
      assert impacts == init + [m];
    }
  }

  /**
   * A reply is accepted exactly when it is one and names listed candidates only, and then every candidate it mentions
   * is reported once, in the order and with the confidence of its first mention. Without candidates nothing is asked.
   */
  lemma {:induction false} MapReplyIsExact(candidates: seq<Obligation>, reply: MappingReply) returns (at: seq<nat>)
    ensures var r := MapReply(candidates, reply);
            && (candidates == [] ==> r == Ok([]))
            && (candidates != [] ==>
                  && (reply.MappingFailure? ==> r == Err(reply.error))
                  && (r.Ok? <==> reply.Mapping? && forall m <- reply.impacts :: 0 <= m.index < |candidates|))
            && (candidates != [] && r.Ok? ==>
                  && AreFirsts(reply.impacts, at) && |r.value| == |at|
                  && forall k :: 0 <= k < |at| ==>
                       && at[k] < |reply.impacts| && 0 <= reply.impacts[at[k]].index < |candidates|
                       && r.value[k] == (candidates[reply.impacts[at[k]].index], reply.impacts[at[k]].confidence))
  {
    at := [];
    if candidates != [] && reply.Mapping? {
      at := FirstMentionsAt(reply.impacts);
      FirstMentionsMeans(reply.impacts);
      forall k | 0 <= k < |reply.impacts| ensures reply.impacts[k] in reply.impacts {
      }
    }
  }
}
