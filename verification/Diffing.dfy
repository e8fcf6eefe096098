/** Keyed alignment of two versions and their diff (app/services/diffing.py). */
module Diffing {
  import opened Wrappers
  import opened Text
  import opened ClauseKeys
  import opened Sections

  datatype ChangeKind = Added | Removed | Modified

  datatype Change = Change(
    kind: ChangeKind, clauseRef: Option<string>, baseSpan: Option<Span>, amendedSpan: Option<Span>)

  /** One version: its canonical text and the clause sections of that text. */
  datatype Version = Version(text: string, sections: seq<Section>) {
    ghost predicate Valid() {
      WellSectioned(text, sections)
    }

    function SpanAt(i: nat): Span {
      if i < |sections| then Span(sections[i].start, sections[i].end) else Span(0, 0)
    }

    function SliceAt(i: nat): string {
      Slice(text, SpanAt(i))
    }
  }

  function VersionOf(text: string): (v: Version)
    ensures v.Valid()
  {
    SectionsAreWellFormed(text);
    Version(text, SectionsOf(text))
  }

  // ----- Pairing by key and rank -----

  /** Positions of the sections with the given key, in order. */
  function Positions(sections: seq<Section>, key: Option<Key>): seq<nat> {
    if sections == [] then []
    else
      var n := |sections| - 1;
      var before := Positions(sections[..n], key);
      if sections[n].key == key then before + [n] else before
  }

  /** How many earlier sections share the key of section `i`. */
  function Rank(sections: seq<Section>, i: nat): nat
    requires i < |sections|
  {
    |Positions(sections[..i], sections[i].key)|
  }

  lemma {:induction false} PositionsOfLonger(sections: seq<Section>, i: nat, key: Option<Key>)
    requires i < |sections|
    ensures Positions(sections[..i + 1], key) ==
            if sections[i].key == key then Positions(sections[..i], key) + [i] else Positions(sections[..i], key)
  {
    assert sections[..i + 1][..i] == sections[..i];
  }

  lemma {:induction false} PositionsArePrefix(sections: seq<Section>, i: nat, key: Option<Key>)
    requires i <= |sections|
    ensures Positions(sections[..i], key) <= Positions(sections, key)
    decreases |sections| - i
  {
    if i < |sections| {
      PositionsOfLonger(sections, i, key);
      PositionsArePrefix(sections, i + 1, key);
    } else {
      assert sections[..i] == sections;
    }
  }

  /** Section `j` is the one at its rank among the sections with its key. */
  lemma {:induction false} PositionAtRank(sections: seq<Section>, j: nat)
    requires j < |sections|
    ensures var ps := Positions(sections, sections[j].key);
            Rank(sections, j) < |ps| && ps[Rank(sections, j)] == j
  {
    PositionsOfLonger(sections, j, sections[j].key);
    PositionsArePrefix(sections, j + 1, sections[j].key);
  }

  lemma {:induction false} RankOfPosition(sections: seq<Section>, key: Option<Key>, r: nat)
    requires r < |Positions(sections, key)|
    ensures var j := Positions(sections, key)[r];
            j < |sections| && sections[j].key == key && Rank(sections, j) == r
  {
    var n := |sections| - 1;
    var init := sections[..n];
    var before := Positions(init, key);
    if r < |before| {
      RankOfPosition(init, key, r);
      var j := before[r];
      assert init[..j] == sections[..j];
    }
  }

  /** The amended section with the same key and the same rank as base section `i`. */
  function Partner(base: seq<Section>, amended: seq<Section>, i: nat): Option<nat>
    requires i < |base|
  {
    var ps := Positions(amended, base[i].key);
    if Rank(base, i) < |ps| then Some(ps[Rank(base, i)]) else None
  }

  /** `i` and `j` are paired exactly when key and rank agree. */
  lemma {:induction false} PartnersShareKeyAndRank(base: seq<Section>, amended: seq<Section>, i: nat, j: nat)
    requires i < |base|
    ensures Partner(base, amended, i) == Some(j) <==>
            j < |amended| && amended[j].key == base[i].key && Rank(amended, j) == Rank(base, i)
  {
    if Partner(base, amended, i) == Some(j) {
      RankOfPosition(amended, base[i].key, Rank(base, i));
    } else if j < |amended| && amended[j].key == base[i].key && Rank(amended, j) == Rank(base, i) {
      PositionAtRank(amended, j);
    }
  }

  /** The pairing is one relation seen from either side. */
  lemma {:induction false} PartnerIsSymmetric(base: seq<Section>, amended: seq<Section>, i: nat, j: nat)
    requires i < |base| && j < |amended|
    ensures Partner(base, amended, i) == Some(j) <==> Partner(amended, base, j) == Some(i)
  {
    PartnersShareKeyAndRank(base, amended, i, j);
    PartnersShareKeyAndRank(amended, base, j, i);
  }

  // ----- The changes, declaratively -----

  function RemovedAt(base: Version, i: nat): Change
    requires i < |base.sections|
  {
    Change(Removed, base.sections[i].clauseRef, Some(base.SpanAt(i)), None)
  }

  function ModifiedAt(base: Version, amended: Version, i: nat, j: nat): Change
    requires i < |base.sections| && j < |amended.sections|
  {
    Change(Modified, base.sections[i].clauseRef, Some(base.SpanAt(i)), Some(amended.SpanAt(j)))
  }

  function AddedAt(amended: Version, j: nat): Change
    requires j < |amended.sections|
  {
    Change(Added, amended.sections[j].clauseRef, None, Some(amended.SpanAt(j)))
  }

  /** What happened to base section `i`; None when its partner reads the same. */
  function BaseChange(base: Version, amended: Version, i: nat): Option<Change>
    requires i < |base.sections|
  {
    match Partner(base.sections, amended.sections, i)
    case None => Some(RemovedAt(base, i))
    case Some(j) =>
      PartnersShareKeyAndRank(base.sections, amended.sections, i, j);
      if base.SliceAt(i) != amended.SliceAt(j) then Some(ModifiedAt(base, amended, i, j)) else None
  }

  /** Amended section `j`, unless a base section is its partner. */
  function AddedChange(base: Version, amended: Version, j: nat): Option<Change>
    requires j < |amended.sections|
  {
    if Partner(amended.sections, base.sections, j).None? then Some(AddedAt(amended, j)) else None
  }

  /** What happens section by section: the base sections in order, then the amended ones. */
  function Outcomes(base: Version, amended: Version): seq<Option<Change>> {
    var n := |base.sections|;
    seq(n + |amended.sections|, i requires 0 <= i < n + |amended.sections| =>
      if i < n then BaseChange(base, amended, i) else AddedChange(base, amended, i - n))
  }

  /** The changes among the outcomes, in order. */
  function Gather(outcomes: seq<Option<Change>>): seq<Change> {
    if outcomes == [] then []
    else
      var n := |outcomes| - 1;
      if outcomes[n].Some? then Gather(outcomes[..n]) + [outcomes[n].value] else Gather(outcomes[..n])
  }

  function Diff(base: Version, amended: Version): seq<Change> {
    Gather(Outcomes(base, amended))
  }

  lemma {:induction false} GatherOneMore(outcomes: seq<Option<Change>>, n: nat)
    requires n < |outcomes|
    ensures Gather(outcomes[..n + 1]) ==
            if outcomes[n].Some? then Gather(outcomes[..n]) + [outcomes[n].value] else Gather(outcomes[..n])
  {
    assert outcomes[..n + 1][..n] == outcomes[..n];
  }

  // ----- The greedy matcher refines the pairing -----

  function Get(byKey: map<Option<Key>, seq<nat>>, key: Option<Key>): seq<nat> {
    if key in byKey then byKey[key] else []
  }

  /** `next((i for i in indices if i not in consumed), None)`. */
  function FirstFree(indices: seq<nat>, consumed: set<nat>): Option<nat> {
    if indices == [] then None
    else if indices[0] !in consumed then Some(indices[0])
    else FirstFree(indices[1..], consumed)
  }

  lemma {:induction false} FirstFreeAfter(indices: seq<nat>, consumed: set<nat>, taken: nat)
    requires forall r :: 0 <= r < |indices| ==> (indices[r] in consumed <==> r < taken)
    ensures FirstFree(indices, consumed) == if taken < |indices| then Some(indices[taken]) else None
  {
    if indices != [] && taken > 0 {
      FirstFreeAfter(indices[1..], consumed, taken - 1);
    }
  }

  /** Amended positions whose rank is used up by the first `n` base sections. */
  ghost function Taken(base: seq<Section>, amended: seq<Section>, n: nat): set<nat>
    requires n <= |base|
  {
    set j | 0 <= j < |amended| && Rank(amended, j) < |Positions(base[..n], amended[j].key)|
  }

  /** The greedy choice for base section `n` is its partner, and consuming it keeps the used ranks exact. */
  lemma {:induction false} GreedyTakesPartner(base: seq<Section>, amended: seq<Section>, n: nat)
    requires n < |base|
    ensures var match' := Partner(base, amended, n);
            && FirstFree(Positions(amended, base[n].key), Taken(base, amended, n)) == match'
            && Taken(base, amended, n + 1) ==
               Taken(base, amended, n) + if match'.Some? then {match'.value} else {}
  {
    var key, taken := base[n].key, Taken(base, amended, n);
    var ps := Positions(amended, key);
    forall r | 0 <= r < |ps| ensures ps[r] in taken <==> r < Rank(base, n) {
      RankOfPosition(amended, key, r);
    }
    FirstFreeAfter(ps, taken, Rank(base, n));
    var match' := Partner(base, amended, n);
    forall j: nat | j < |amended|
      ensures j in Taken(base, amended, n + 1) <==> j in taken || match' == Some(j)
    {
      PositionsOfLonger(base, n, amended[j].key);
      PartnersShareKeyAndRank(base, amended, n, j);
    }
    if match'.Some? {
      PartnersShareKeyAndRank(base, amended, n, match'.value);
    }
  }

  lemma {:induction false} TakenHavePartners(base: seq<Section>, amended: seq<Section>, j: nat)
    requires j < |amended|
    ensures j in Taken(base, amended, |base|) <==> Partner(amended, base, j).Some?
  {
    assert base[..|base|] == base;
  }

  lemma {:induction false} AddedOutcomeAt(base: Version, amended: Version, i: nat, j: nat)
    requires j < |amended.sections| && i == |base.sections| + j
    ensures Outcomes(base, amended)[i] == AddedChange(base, amended, j)
  {
    assert i - |base.sections| == j;
  }

  lemma {:induction false} BaseStep(base: Version, amended: Version, i: nat)
    requires i < |base.sections|
    ensures var all, p := Outcomes(base, amended), Partner(base.sections, amended.sections, i);
            var before, after := Gather(all[..i]), Gather(all[..i + 1]);
            if p.None? then after == before + [RemovedAt(base, i)]
            else p.value < |amended.sections| &&
                 after == if base.SliceAt(i) != amended.SliceAt(p.value)
                          then before + [ModifiedAt(base, amended, i, p.value)] else before
  {
    GatherOneMore(Outcomes(base, amended), i);
    if p: nat :| Partner(base.sections, amended.sections, i) == Some(p) {
      PartnersShareKeyAndRank(base.sections, amended.sections, i, p);
    }
  }

  lemma {:induction false} AddedStep(base: Version, amended: Version, i: nat, j: nat)
    requires j < |amended.sections| && i == |base.sections| + j
    ensures var all := Outcomes(base, amended);
            Gather(all[..i + 1]) ==
            if Partner(amended.sections, base.sections, j).None?
            then Gather(all[..i]) + [AddedAt(amended, j)] else Gather(all[..i])
  {
    AddedOutcomeAt(base, amended, i, j);
    GatherOneMore(Outcomes(base, amended), i);
  }

  /** First loop: amended positions by key. */
  method IndexByKey(amended: seq<Section>) returns (byKey: map<Option<Key>, seq<nat>>)
    ensures forall key :: Get(byKey, key) == Positions(amended, key)
  {
    byKey := map[];
    for i := 0 to |amended|
      invariant forall key :: Get(byKey, key) == Positions(amended[..i], key)
    {
      ghost var before := byKey;
      byKey := byKey[amended[i].key := Get(byKey, amended[i].key) + [i]];
      forall key ensures Get(byKey, key) == Positions(amended[..i + 1], key) {
        PositionsOfLonger(amended, i, key);
        assert Get(before, key) == Positions(amended[..i], key);
      }
    }
    assert amended[..|amended|] == amended;
  }

  /** Second loop: every base section takes the first free amended section with its key. */
  method MatchBase(base: Version, amended: Version, byKey: map<Option<Key>, seq<nat>>)
    returns (changes: seq<Change>, consumed: set<nat>)
    requires forall key :: Get(byKey, key) == Positions(amended.sections, key)
    ensures changes == Gather(Outcomes(base, amended)[..|base.sections|])
    ensures consumed == Taken(base.sections, amended.sections, |base.sections|)
  {
    changes, consumed := [], {};
    for i := 0 to |base.sections|
      invariant consumed == Taken(base.sections, amended.sections, i)
      invariant changes == Gather(Outcomes(base, amended)[..i])
    {
      GreedyTakesPartner(base.sections, amended.sections, i);
      BaseStep(base, amended, i);
      var free := FirstFree(Get(byKey, base.sections[i].key), consumed);
      if free.None? {
        changes := changes + [Change(Removed, base.sections[i].clauseRef, Some(base.SpanAt(i)), None)];
        continue;
      }
      var j := free.value;
      consumed := consumed + {j};
      if base.SliceAt(i) != amended.SliceAt(j) {
        changes := changes +
          [Change(Modified, base.sections[i].clauseRef, Some(base.SpanAt(i)), Some(amended.SpanAt(j)))];
      }
    }
  }

  /** Third loop: what was not consumed was added. */
  method AddUnmatched(base: Version, amended: Version, matched: seq<Change>, consumed: set<nat>)
    returns (changes: seq<Change>)
    requires matched == Gather(Outcomes(base, amended)[..|base.sections|])
    requires consumed == Taken(base.sections, amended.sections, |base.sections|)
    ensures changes == Diff(base, amended)
  {
    changes := matched;
    ghost var n := |base.sections|;
    for j := 0 to |amended.sections|
      invariant changes == Gather(Outcomes(base, amended)[..n + j])
    {
      TakenHavePartners(base.sections, amended.sections, j);
      AddedStep(base, amended, n + j, j);
      if j in consumed {
        continue;
      }
      changes := changes + [Change(Added, amended.sections[j].clauseRef, None, Some(amended.SpanAt(j)))];
    }
    assert Outcomes(base, amended)[..n + |amended.sections|] == Outcomes(base, amended);
  }

  method DetectChanges(baseText: string, amendedText: string) returns (changes: seq<Change>)
    ensures changes == Diff(VersionOf(baseText), VersionOf(amendedText))
  {
    var baseSections := FindSections(baseText);
    var amendedSections := FindSections(amendedText);
    var base, amended := Version(baseText, baseSections), Version(amendedText, amendedSections);
    var byKey := IndexByKey(amendedSections);
    var matched, consumed := MatchBase(base, amended, byKey);
    changes := AddUnmatched(base, amended, matched, consumed);
  }
}
