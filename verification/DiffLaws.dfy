/** Laws of the version diff: shape, edit script, emptiness and duality (app/services/diffing.py). */
module DiffLaws {
  import opened Wrappers
  import opened Text
  import opened ClauseKeys
  import opened Paragraphs
  import opened Sections
  import opened Diffing

  // ----- Gathering outcomes -----

  lemma {:induction false} GatherConcat(xs: seq<Option<Change>>, ys: seq<Option<Change>>)
    ensures Gather(xs + ys) == Gather(xs) + Gather(ys)
  {
    if ys == [] {
      assert xs + ys == xs;
    } else {
      GatherConcat(xs, ys[..|ys| - 1]);
      assert (xs + ys)[..|xs + ys| - 1] == xs + ys[..|ys| - 1];
    }
  }

  lemma {:induction false} GatherNothing(xs: seq<Option<Change>>)
    requires forall i :: 0 <= i < |xs| ==> xs[i].None?
    ensures Gather(xs) == []
  {
    if xs != [] {
      GatherNothing(xs[..|xs| - 1]);
    }
  }

  lemma {:induction false} GatherMembers(xs: seq<Option<Change>>, c: Change)
    ensures c in Gather(xs) <==> Some(c) in xs
  {
    if xs != [] {
      GatherMembers(xs[..|xs| - 1], c);
      assert xs == xs[..|xs| - 1] + [xs[|xs| - 1]];
    }
  }

  // ----- Shape -----

  ghost predicate SpanIn(text: string, span: Option<Span>) {
    span.Some? && span.value.start < span.value.end <= |text|
  }

  /** The kind decides which spans are present; those present are non-empty and lie in their own text. */
  ghost predicate Shaped(c: Change, baseText: string, amendedText: string) {
    && (if c.kind == Added then c.baseSpan.None? else SpanIn(baseText, c.baseSpan))
    && (if c.kind == Removed then c.amendedSpan.None? else SpanIn(amendedText, c.amendedSpan))
  }

  /** Modified and removed changes in base order, then added ones in amendment order. */
  ghost predicate Before(c: Change, d: Change) {
    if c.kind == Added then
      d.kind == Added && c.amendedSpan.Some? && d.amendedSpan.Some?
      && c.amendedSpan.value.end < d.amendedSpan.value.start
    else if d.kind == Added then true
    else c.baseSpan.Some? && d.baseSpan.Some? && c.baseSpan.value.end < d.baseSpan.value.start
  }

  ghost predicate Ordered(changes: seq<Change>) {
    forall i, j :: 0 <= i < j < |changes| ==> Before(changes[i], changes[j])
  }

  ghost predicate OutcomesOrdered(xs: seq<Option<Change>>) {
    forall i, j :: 0 <= i < j < |xs| && xs[i].Some? && xs[j].Some? ==> Before(xs[i].value, xs[j].value)
  }

  lemma {:induction false} GatherKeepsOrder(xs: seq<Option<Change>>)
    requires OutcomesOrdered(xs)
    ensures Ordered(Gather(xs))
  {
    if xs != [] {
      var n := |xs| - 1;
      var before, changes := Gather(xs[..n]), Gather(xs);
      GatherKeepsOrder(xs[..n]);
      forall i, j | 0 <= i < j < |changes| ensures Before(changes[i], changes[j]) {
        GatherMembers(xs[..n], before[i]);
        assert before[i] in before;
      }
    }
  }

  lemma {:induction false} BaseOutcome(base: Version, amended: Version, i: nat)
    requires base.Valid() && amended.Valid() && i < |base.sections|
    ensures var c := BaseChange(base, amended, i);
            c.Some? ==> Shaped(c.value, base.text, amended.text) && c.value.kind != Added
                        && c.value.baseSpan == Some(base.SpanAt(i))
  {
    assert WellFormed(base.text, base.sections[i]);
    match Partner(base.sections, amended.sections, i)
    case None =>
    case Some(j) =>
      PartnersShareKeyAndRank(base.sections, amended.sections, i, j);
      assert WellFormed(amended.text, amended.sections[j]);
  }

  lemma {:induction false} AddedOutcome(base: Version, amended: Version, j: nat)
    requires amended.Valid() && j < |amended.sections|
    ensures var c := AddedChange(base, amended, j);
            c.Some? ==> Shaped(c.value, base.text, amended.text) && c.value.kind == Added
                        && c.value.amendedSpan == Some(amended.SpanAt(j)) && c.value.baseSpan.None?
  {
    assert WellFormed(amended.text, amended.sections[j]);
  }

  lemma {:induction false} OutcomeShape(base: Version, amended: Version, i: nat)
    requires base.Valid() && amended.Valid() && i < |Outcomes(base, amended)|
    ensures var n, c := |base.sections|, Outcomes(base, amended)[i];
            c.Some? ==>
              && Shaped(c.value, base.text, amended.text)
              && (c.value.kind == Added <==> n <= i)
              && c.value.baseSpan == (if i < n then Some(base.SpanAt(i)) else None)
              && (n <= i ==> c.value.amendedSpan == Some(amended.SpanAt(i - n)))
  {
    var n := |base.sections|;
    if i < n {
      BaseOutcome(base, amended, i);
    } else {
      AddedOutcome(base, amended, i - n);
    }
  }

  /** Every change is well shaped, and the list is in the documented order. */
  lemma {:induction false} DiffIsShapedAndOrdered(base: Version, amended: Version)
    requires base.Valid() && amended.Valid()
    ensures forall c <- Diff(base, amended) :: Shaped(c, base.text, amended.text)
    ensures Ordered(Diff(base, amended))
  {
    var xs, n := Outcomes(base, amended), |base.sections|;
    forall c | c in Diff(base, amended) ensures Shaped(c, base.text, amended.text) {
      GatherMembers(xs, c);
      var i :| 0 <= i < |xs| && xs[i] == Some(c);
      OutcomeShape(base, amended, i);
    }
    forall i, j | 0 <= i < j < |xs| && xs[i].Some? && xs[j].Some? ensures Before(xs[i].value, xs[j].value) {
      OutcomeShape(base, amended, i);
      OutcomeShape(base, amended, j);
      assert j < n ==> base.sections[i].end < base.sections[j].start;
      assert n <= i ==> amended.sections[i - n].end < amended.sections[j - n].start;
    }
    GatherKeepsOrder(xs);
  }

  /** `c` tells of section `i`, under the reference of that section. */
  predicate Concerns(c: Change, span: Option<Span>, v: Version, i: nat) {
    i < |v.sections| && span == Some(v.SpanAt(i)) && c.clauseRef == v.sections[i].clauseRef
  }

  lemma {:induction false} OutcomeRef(base: Version, amended: Version, i: nat)
    requires i < |Outcomes(base, amended)|
    ensures var n, c := |base.sections|, Outcomes(base, amended)[i];
            c.Some? ==> c.value.clauseRef ==
                        if i < n then base.sections[i].clauseRef else amended.sections[i - n].clauseRef
  {
    var n := |base.sections|;
    if i < n {
      assert Outcomes(base, amended)[i] == BaseChange(base, amended, i);
    } else {
      AddedOutcomeAt(base, amended, i, i - n);
    }
  }

  /** A change carries the reference of the base section it concerns, and only an added one that of the amended one. */
  lemma {:induction false} ChangesCarryRefs(base: Version, amended: Version, c: Change)
    requires base.Valid() && amended.Valid() && c in Diff(base, amended)
    ensures c.kind != Added ==> exists i: nat :: Concerns(c, c.baseSpan, base, i)
    ensures c.kind == Added ==> exists j: nat :: Concerns(c, c.amendedSpan, amended, j)
  {
    var xs, n := Outcomes(base, amended), |base.sections|;
    GatherMembers(xs, c);
    var i: nat :| i < |xs| && xs[i] == Some(c);
    OutcomeShape(base, amended, i);
    OutcomeRef(base, amended, i);
    if i < n {
      assert Concerns(c, c.baseSpan, base, i);
    } else {
      assert Concerns(c, c.amendedSpan, amended, i - n);
    }
  }

  // ----- Edit script -----

  function SpanText(text: string, span: Option<Span>): string {
    if span.Some? then Slice(text, span.value) else ""
  }

  function SlicesAt(v: Version, at: seq<nat>): seq<string> {
    seq(|at|, r requires 0 <= r < |at| => v.SliceAt(at[r]))
  }

  /** The texts of the sections with one key, in order. */
  function KeyTexts(v: Version, key: Option<Key>): seq<string> {
    SlicesAt(v, Positions(v.sections, key))
  }

  /** The change that names a base span. */
  function ChangeAt(changes: seq<Change>, span: Span): Option<Change> {
    if changes == [] then None
    else
      var n := |changes| - 1;
      var earlier := ChangeAt(changes[..n], span);
      if earlier.Some? then earlier
      else if changes[n].baseSpan == Some(span) then Some(changes[n])
      else None
  }

  /** Base sections at the given positions after the changes: kept, replaced or dropped. */
  function Replay(changes: seq<Change>, base: Version, amendedText: string, at: seq<nat>): seq<string> {
    if at == [] then []
    else
      var n := |at| - 1;
      var before := Replay(changes, base, amendedText, at[..n]);
      match ChangeAt(changes, base.SpanAt(at[n]))
      case None => before + [base.SliceAt(at[n])]
      case Some(c) => if c.kind == Removed then before else before + [SpanText(amendedText, c.amendedSpan)]
  }

  function AddedTexts(changes: seq<Change>, clauseRef: Option<string>, amendedText: string): seq<string> {
    if changes == [] then []
    else
      var n := |changes| - 1;
      var before := AddedTexts(changes[..n], clauseRef, amendedText);
      if changes[n].kind == Added && changes[n].clauseRef == clauseRef
      then before + [SpanText(amendedText, changes[n].amendedSpan)] else before
  }

  /** The base texts of one key after applying the changes; only the changes and the amended text are consulted. */
  function Patched(changes: seq<Change>, base: Version, amendedText: string, key: Option<Key>): seq<string> {
    Replay(changes, base, amendedText, Positions(base.sections, key)) + AddedTexts(changes, ClauseRef(key), amendedText)
  }

  lemma {:induction false} LookupGathered(xs: seq<Option<Change>>, span: Span, i: nat)
    requires forall k :: 0 <= k < |xs| && xs[k].Some? ==> (xs[k].value.baseSpan == Some(span) <==> k == i)
    ensures ChangeAt(Gather(xs), span) == if i < |xs| then xs[i] else None
  {
    if xs != [] {
      var n := |xs| - 1;
      LookupGathered(xs[..n], span, i);
      assert xs[n].Some? ==> Gather(xs)[..|Gather(xs)| - 1] == Gather(xs[..n]);
    }
  }

  /** The change list says of every base section what happened to it. */
  lemma {:induction false} LookupInDiff(base: Version, amended: Version, i: nat)
    requires base.Valid() && amended.Valid() && i < |base.sections|
    ensures ChangeAt(Diff(base, amended), base.SpanAt(i)) == BaseChange(base, amended, i)
  {
    var xs := Outcomes(base, amended);
    forall k | 0 <= k < |xs| && xs[k].Some? ensures xs[k].value.baseSpan == Some(base.SpanAt(i)) <==> k == i {
      OutcomeShape(base, amended, k);
    }
    LookupGathered(xs, base.SpanAt(i), i);
  }

  function Take<T>(xs: seq<T>, n: nat): seq<T> {
    if n <= |xs| then xs[..n] else xs
  }

  function Drop<T>(xs: seq<T>, n: nat): seq<T> {
    if n <= |xs| then xs[n..] else []
  }

  lemma {:induction false} TakeOneMore<T>(xs: seq<T>, n: nat)
    ensures Take(xs, n + 1) == if n < |xs| then Take(xs, n) + [xs[n]] else Take(xs, n)
  {
  }

  lemma {:induction false} TakeThenDrop<T>(xs: seq<T>, n: nat)
    ensures Take(xs, n) + Drop(xs, n) == xs
  {
  }

  lemma {:induction false} ReplayOneMore(
      changes: seq<Change>, base: Version, amendedText: string, at: seq<nat>, n: nat)
    requires n < |at|
    ensures var before := Replay(changes, base, amendedText, at[..n]);
            Replay(changes, base, amendedText, at[..n + 1]) ==
            match ChangeAt(changes, base.SpanAt(at[n]))
            case None => before + [base.SliceAt(at[n])]
            case Some(c) => if c.kind == Removed then before else before + [SpanText(amendedText, c.amendedSpan)]
  {
    assert at[..n + 1][..n] == at[..n];
  }

  lemma {:induction false} ReplayYieldsPartners(base: Version, amended: Version, key: Option<Key>, r: nat)
    requires base.Valid() && amended.Valid() && r <= |Positions(base.sections, key)|
    ensures Replay(Diff(base, amended), base, amended.text, Positions(base.sections, key)[..r])
         == Take(KeyTexts(amended, key), r)
  {
    var ps := Positions(base.sections, key);
    if r > 0 {
      var n := r - 1;
      ReplayYieldsPartners(base, amended, key, n);
      ReplayOneMore(Diff(base, amended), base, amended.text, ps, n);
      RankOfPosition(base.sections, key, n);
      LookupInDiff(base, amended, ps[n]);
      TakeOneMore(KeyTexts(amended, key), n);
    }
  }

  lemma {:induction false} AddedTextsGathered(xs: seq<Option<Change>>, n: nat, clauseRef: Option<string>, text: string)
    requires n < |xs|
    ensures var before, c := AddedTexts(Gather(xs[..n]), clauseRef, text), xs[n];
            AddedTexts(Gather(xs[..n + 1]), clauseRef, text) ==
            if c.Some? && c.value.kind == Added && c.value.clauseRef == clauseRef
            then before + [SpanText(text, c.value.amendedSpan)] else before
  {
    GatherOneMore(xs, n);
    if xs[n].Some? {
      var before := Gather(xs[..n]);
      assert (before + [xs[n].value])[..|before|] == before;
    }
  }

  lemma {:induction false} NothingAddedInBase(base: Version, amended: Version, n: nat, clauseRef: Option<string>)
    requires base.Valid() && amended.Valid() && n <= |base.sections|
    ensures AddedTexts(Gather(Outcomes(base, amended)[..n]), clauseRef, amended.text) == []
  {
    if n > 0 {
      NothingAddedInBase(base, amended, n - 1, clauseRef);
      OutcomeShape(base, amended, n - 1);
      AddedTextsGathered(Outcomes(base, amended), n - 1, clauseRef, amended.text);
    }
  }

  /** Texts of the amended sections with `key` among the first `m`. */
  function PrefixTexts(v: Version, key: Option<Key>, m: nat): seq<string>
    requires m <= |v.sections|
  {
    SlicesAt(v, Positions(v.sections[..m], key))
  }

  lemma {:induction false} PrefixTextsGrow(v: Version, key: Option<Key>, m: nat)
    requires m < |v.sections|
    ensures PrefixTexts(v, key, m + 1) ==
            if v.sections[m].key == key then PrefixTexts(v, key, m) + [v.SliceAt(m)] else PrefixTexts(v, key, m)
    ensures v.sections[m].key == key ==> |PrefixTexts(v, key, m)| == Rank(v.sections, m)
  {
    PositionsOfLonger(v.sections, m, key);
  }

  /** An unpaired amended section is listed under the reference of its key and no other. */
  lemma {:induction false} AddedUnderKey(base: Version, amended: Version, key: Option<Key>, j: nat)
    requires amended.Valid() && j < |amended.sections| && Proper(key)
    ensures var c := AddedChange(base, amended, j);
            c.Some? && c.value.clauseRef == ClauseRef(key) <==>
            amended.sections[j].key == key && Rank(amended.sections, j) >= |Positions(base.sections, key)|
  {
    assert WellFormed(amended.text, amended.sections[j]);
    if amended.sections[j].clauseRef == ClauseRef(key) {
      RefIsInjective(amended.sections[j].key, key);
    }
  }

  lemma {:induction false} AddedTextsStep(base: Version, amended: Version, key: Option<Key>, j: nat, i: nat)
    requires base.Valid() && amended.Valid() && j < |amended.sections| && Proper(key) && i == |base.sections| + j
    ensures var xs := Outcomes(base, amended);
            var before := AddedTexts(Gather(xs[..i]), ClauseRef(key), amended.text);
            AddedTexts(Gather(xs[..i + 1]), ClauseRef(key), amended.text) ==
            if amended.sections[j].key == key && Rank(amended.sections, j) >= |Positions(base.sections, key)|
            then before + [amended.SliceAt(j)] else before
  {
    AddedOutcomeAt(base, amended, i, j);
    AddedOutcome(base, amended, j);
    AddedTextsGathered(Outcomes(base, amended), i, ClauseRef(key), amended.text);
    AddedUnderKey(base, amended, key, j);
  }

  /** The texts added under the key by the first `i` outcomes. */
  function AddedUpTo(base: Version, amended: Version, key: Option<Key>, i: nat): seq<string>
    requires base.Valid() && amended.Valid() && i <= |base.sections| + |amended.sections|
  {
    AddedTexts(Gather(Outcomes(base, amended)[..i]), ClauseRef(key), amended.text)
  }

  lemma {:induction false} RestStep(base: Version, amended: Version, key: Option<Key>, j: nat, i: nat)
    requires base.Valid() && amended.Valid() && j < |amended.sections| && Proper(key) && i == |base.sections| + j
    requires AddedUpTo(base, amended, key, i) == Drop(PrefixTexts(amended, key, j), |Positions(base.sections, key)|)
    ensures AddedUpTo(base, amended, key, i + 1)
            == Drop(PrefixTexts(amended, key, j + 1), |Positions(base.sections, key)|)
  {
    AddedTextsStep(base, amended, key, j, i);
    PrefixTextsGrow(amended, key, j);
  }

  lemma {:induction false} NothingAddedYet(base: Version, amended: Version, key: Option<Key>)
    requires base.Valid() && amended.Valid()
    ensures AddedUpTo(base, amended, key, |base.sections|) == [] && PrefixTexts(amended, key, 0) == []
  {
    NothingAddedInBase(base, amended, |base.sections|, ClauseRef(key));
  }

  lemma {:induction false} AddedTextsAreTheRest(base: Version, amended: Version, key: Option<Key>, m: nat, i: nat)
    requires base.Valid() && amended.Valid() && m <= |amended.sections| && Proper(key) && i == |base.sections| + m
    ensures AddedUpTo(base, amended, key, i) == Drop(PrefixTexts(amended, key, m), |Positions(base.sections, key)|)
  {
    if m == 0 {
      NothingAddedYet(base, amended, key);
    } else {
      AddedTextsAreTheRest(base, amended, key, m - 1, i - 1);
      RestStep(base, amended, key, m - 1, i - 1);
    }
  }

  /** The diff is a correct edit script: for every key it turns the base texts into exactly the amended texts. */
  lemma {:induction false} DiffPatchesBase(base: Version, amended: Version, key: Option<Key>)
    requires base.Valid() && amended.Valid() && Proper(key)
    ensures Patched(Diff(base, amended), base, amended.text, key) == KeyTexts(amended, key)
  {
    var ps, m := Positions(base.sections, key), |amended.sections|;
    ReplayYieldsPartners(base, amended, key, |ps|);
    AddedTextsAreTheRest(base, amended, key, m, |base.sections| + m);
    assert ps[..|ps|] == ps && amended.sections[..m] == amended.sections;
    assert Outcomes(base, amended)[..|base.sections| + m] == Outcomes(base, amended);
    TakeThenDrop(KeyTexts(amended, key), |ps|);
  }

  // ----- When nothing changed -----

  ghost predicate SameTexts(base: Version, amended: Version) {
    forall key :: Proper(key) ==> KeyTexts(base, key) == KeyTexts(amended, key)
  }

  lemma {:induction false} ReplayOfNothing(base: Version, amendedText: string, at: seq<nat>)
    ensures Replay([], base, amendedText, at) == SlicesAt(base, at)
  {
    if at != [] {
      var n := |at| - 1;
      ReplayOfNothing(base, amendedText, at[..n]);
      assert SlicesAt(base, at) == SlicesAt(base, at[..n]) + [base.SliceAt(at[n])];
    }
  }

  lemma {:induction false} SameTextAtRank(a: Version, b: Version, i: nat)
    requires a.Valid() && i < |a.sections| && KeyTexts(a, a.sections[i].key) == KeyTexts(b, a.sections[i].key)
    ensures var p := Partner(a.sections, b.sections, i); p.Some? && a.SliceAt(i) == b.SliceAt(p.value)
  {
    var key, r := a.sections[i].key, Rank(a.sections, i);
    PositionAtRank(a.sections, i);
    assert |KeyTexts(a, key)| == |KeyTexts(b, key)|;
    assert KeyTexts(a, key)[r] == KeyTexts(b, key)[r];
  }

  lemma {:induction false} SameTextsNoOutcome(base: Version, amended: Version, i: nat)
    requires base.Valid() && amended.Valid() && SameTexts(base, amended) && i < |Outcomes(base, amended)|
    ensures Outcomes(base, amended)[i].None?
  {
    var n := |base.sections|;
    if i < n {
      assert WellFormed(base.text, base.sections[i]);
      SameTextAtRank(base, amended, i);
    } else {
      assert WellFormed(amended.text, amended.sections[i - n]);
      SameTextAtRank(amended, base, i - n);
      AddedOutcomeAt(base, amended, i, i - n);
    }
  }

  /** The diff is empty if and only if every key reads the same in both versions. */
  lemma {:induction false} EmptyIffSameTexts(base: Version, amended: Version)
    requires base.Valid() && amended.Valid()
    ensures Diff(base, amended) == [] <==> SameTexts(base, amended)
  {
    if SameTexts(base, amended) {
      forall i | 0 <= i < |Outcomes(base, amended)| ensures Outcomes(base, amended)[i].None? {
        SameTextsNoOutcome(base, amended, i);
      }
      GatherNothing(Outcomes(base, amended));
    } else if Diff(base, amended) == [] {
      var key :| Proper(key) && KeyTexts(base, key) != KeyTexts(amended, key);
      DiffPatchesBase(base, amended, key);
      ReplayOfNothing(base, amended.text, Positions(base.sections, key));
    }
  }

  /** A text does not differ from itself. */
  lemma {:induction false} NoChangeToItself(text: string)
    ensures Diff(VersionOf(text), VersionOf(text)) == []
  {
    EmptyIffSameTexts(VersionOf(text), VersionOf(text));
  }

  // ----- When some change has both spans -----

  /** Where both versions have an `r`-th section with the key, the two read the same. */
  ghost predicate AgreeAt(base: Version, amended: Version, key: Option<Key>, r: nat) {
    r < |KeyTexts(base, key)| && r < |KeyTexts(amended, key)| ==> KeyTexts(base, key)[r] == KeyTexts(amended, key)[r]
  }

  /** Every key reads the same in both versions up to the shorter of its two lists. */
  ghost predicate AgreeWhereBoth(base: Version, amended: Version) {
    forall key, r: nat :: Proper(key) ==> AgreeAt(base, amended, key, r)
  }

  lemma {:induction false} ModifiedOutcome(base: Version, amended: Version, i: nat)
    requires i < |base.sections|
    ensures var c := BaseChange(base, amended, i);
            c.Some? && c.value.kind == Modified
            <==> !AgreeAt(base, amended, base.sections[i].key, Rank(base.sections, i))
  {
    PositionAtRank(base.sections, i);
    var p := Partner(base.sections, amended.sections, i);
    if p.Some? {
      PartnersShareKeyAndRank(base.sections, amended.sections, i, p.value);
    }
  }

  lemma {:induction false} DisagreementIsReported(base: Version, amended: Version, key: Option<Key>, r: nat)
    requires base.Valid() && amended.Valid() && !AgreeAt(base, amended, key, r)
    ensures exists c <- Diff(base, amended) :: c.kind == Modified
  {
    var i := Positions(base.sections, key)[r];
    RankOfPosition(base.sections, key, r);
    ModifiedOutcome(base, amended, i);
    var xs := Outcomes(base, amended);
    assert xs[i] == BaseChange(base, amended, i);
    GatherMembers(xs, xs[i].value);
    assert xs[i] in xs;
  }

  /** No change is a modification exactly when every key reads the same as far as both versions have it. */
  lemma {:induction false} NoModificationExactly(base: Version, amended: Version)
    requires base.Valid() && amended.Valid()
    ensures (forall c <- Diff(base, amended) :: c.kind != Modified) <==> AgreeWhereBoth(base, amended)
  {
    forall key, r: nat | !AgreeAt(base, amended, key, r) ensures exists c <- Diff(base, amended) :: c.kind == Modified {
      DisagreementIsReported(base, amended, key, r);
    }
    forall c <- Diff(base, amended) | c.kind == Modified ensures !AgreeWhereBoth(base, amended) {
      var xs := Outcomes(base, amended);
      GatherMembers(xs, c);
      var i :| 0 <= i < |xs| && xs[i] == Some(c);
      OutcomeShape(base, amended, i);
      ModifiedOutcome(base, amended, i);
      assert WellFormed(base.text, base.sections[i]);
    }
  }

  /** Exactly one span is missing from every change, as the documentation of a change says, under the same condition. */
  lemma {:induction false} OneSpanMissingExactly(base: Version, amended: Version)
    requires base.Valid() && amended.Valid()
    ensures (forall c <- Diff(base, amended) :: c.baseSpan.Some? <==> c.amendedSpan.None?)
            <==> AgreeWhereBoth(base, amended)
  {
    DiffIsShapedAndOrdered(base, amended);
    NoModificationExactly(base, amended);
    forall c <- Diff(base, amended) ensures c.kind == Modified <==> (c.baseSpan.Some? <==> c.amendedSpan.Some?) {
      assert Shaped(c, base.text, amended.text);
    }
  }

  lemma {:induction false} OneParagraph(text: string)
    requires text in {"a", "b"}
    ensures SectionsOf(text) == [Section(None, None, 0, 1)]
  {
    assert ParagraphEnd(text, 0) == 1 && text[0..1] == text && !IsSpace(text[0]);
    assert ParagraphsOf(text) == [Para(0, 1, text)];
    assert text[1..] == "" && FirstLine(text) == text;
    assert ClauseKey("a") == None && ClauseKey("b") == None;
    assert AllAlone(ParagraphsOf(text)) == [Section(None, None, 0, 1)];
    assert Group([Section(None, None, 0, 1)][..0]) == [];
  }

  lemma {:induction false} LonePosition(s: Section)
    ensures Positions([s], s.key) == [0]
  {
    assert [s][..0] == [];
  }

  /** Two versions of one section that read differently give a change with both spans. */
  lemma {:induction false} LoneSectionsDiffer(base: Version, amended: Version, s: Section)
    requires base.Valid() && amended.Valid() && base.sections == amended.sections == [s]
    requires base.SliceAt(0) != amended.SliceAt(0)
    ensures exists c <- Diff(base, amended) :: c.baseSpan.Some? && c.amendedSpan.Some?
  {
    LonePosition(s);
    assert KeyTexts(base, s.key)[0] == base.SliceAt(0) && KeyTexts(amended, s.key)[0] == amended.SliceAt(0);
    DisagreementIsReported(base, amended, s.key, 0);
    DiffIsShapedAndOrdered(base, amended);
    var c :| c in Diff(base, amended) && c.kind == Modified;
    assert Shaped(c, base.text, amended.text);
  }

  /** A one-letter edit is reported as a change with both spans. */
  lemma {:induction false} EditHasBothSpans()
    ensures exists c <- Diff(VersionOf("a"), VersionOf("b")) :: c.baseSpan.Some? && c.amendedSpan.Some?
  {
    OneParagraph("a");
    OneParagraph("b");
    LoneSectionsDiffer(VersionOf("a"), VersionOf("b"), Section(None, None, 0, 1));
  }

  // ----- Duality -----

  function Flip(c: Change): Change {
    var kind := match c.kind case Added => Removed case Removed => Added case Modified => Modified;
    Change(kind, c.clauseRef, c.amendedSpan, c.baseSpan)
  }

  function FlipAll(changes: seq<Change>): seq<Change> {
    seq(|changes|, i requires 0 <= i < |changes| => Flip(changes[i]))
  }

  function OnlyKind(changes: seq<Change>, kind: ChangeKind): seq<Change> {
    if changes == [] then []
    else
      var n := |changes| - 1;
      if changes[n].kind == kind then OnlyKind(changes[..n], kind) + [changes[n]] else OnlyKind(changes[..n], kind)
  }

  /** Outcomes of one kind only, seen as they are or flipped. */
  function Keep(xs: seq<Option<Change>>, kind: ChangeKind): seq<Option<Change>> {
    seq(|xs|, i requires 0 <= i < |xs| => if xs[i].Some? && xs[i].value.kind == kind then xs[i] else None)
  }

  function FlipEach(xs: seq<Option<Change>>): seq<Option<Change>> {
    seq(|xs|, i requires 0 <= i < |xs| => if xs[i].Some? then Some(Flip(xs[i].value)) else None)
  }

  lemma {:induction false} OnlyKindGathered(xs: seq<Option<Change>>, kind: ChangeKind)
    ensures OnlyKind(Gather(xs), kind) == Gather(Keep(xs, kind))
  {
    if xs != [] {
      var init := xs[..|xs| - 1];
      OnlyKindGathered(init, kind);
      assert Keep(xs, kind)[..|xs| - 1] == Keep(init, kind);
      assert xs[|xs| - 1].Some? ==> Gather(xs)[..|Gather(xs)| - 1] == Gather(init);
    }
  }

  lemma {:induction false} FlipGathered(xs: seq<Option<Change>>)
    ensures FlipAll(Gather(xs)) == Gather(FlipEach(xs))
  {
    if xs != [] {
      var init := xs[..|xs| - 1];
      FlipGathered(init);
      assert FlipEach(xs)[..|xs| - 1] == FlipEach(init);
    }
  }

  lemma {:induction false} RemovedFlipsToAdded(a: Version, b: Version, i: nat)
    requires i < |a.sections|
    ensures var c := BaseChange(a, b, i);
            AddedChange(b, a, i) == if c.Some? && c.value.kind == Removed then Some(Flip(c.value)) else None
  {
  }

  /** The base side of one diff, flipped, is the added side of the other. */
  lemma {:induction false} RemovedIsAddedFlipped(a: Version, b: Version)
    requires a.Valid() && b.Valid()
    ensures FlipAll(OnlyKind(Diff(a, b), Removed)) == OnlyKind(Diff(b, a), Added)
  {
    var n, m := |a.sections|, |b.sections|;
    var xs, ys := FlipEach(Keep(Outcomes(a, b), Removed)), Keep(Outcomes(b, a), Added);
    OnlyKindGathered(Outcomes(a, b), Removed);
    FlipGathered(Keep(Outcomes(a, b), Removed));
    OnlyKindGathered(Outcomes(b, a), Added);
    forall i | n <= i < n + m ensures xs[i].None? {
      OutcomeShape(a, b, i);
    }
    forall i | 0 <= i < m ensures ys[i].None? {
      OutcomeShape(b, a, i);
    }
    forall i | 0 <= i < n ensures xs[i] == ys[m + i] {
      RemovedFlipsToAdded(a, b, i);
      OutcomeShape(b, a, m + i);
    }
    SamePart(xs, ys, n, m);
  }

  lemma {:induction false} SamePart(xs: seq<Option<Change>>, ys: seq<Option<Change>>, n: nat, m: nat)
    requires |xs| == |ys| == n + m
    requires forall i :: n <= i < n + m ==> xs[i].None?
    requires forall i :: 0 <= i < m ==> ys[i].None?
    requires forall i :: 0 <= i < n ==> xs[i] == ys[m + i]
    ensures Gather(xs) == Gather(ys)
  {
    assert xs == xs[..n] + xs[n..] && ys == ys[..m] + ys[m..] && xs[..n] == ys[m..];
    GatherConcat(xs[..n], xs[n..]);
    GatherConcat(ys[..m], ys[m..]);
    GatherNothing(xs[n..]);
    GatherNothing(ys[..m]);
  }

  /** Swapping the versions turns removed into added and added into removed, each in the same order. */
  lemma {:induction false} RemovedAndAddedAreDual(a: Version, b: Version)
    requires a.Valid() && b.Valid()
    ensures FlipAll(OnlyKind(Diff(a, b), Removed)) == OnlyKind(Diff(b, a), Added)
    ensures FlipAll(OnlyKind(Diff(a, b), Added)) == OnlyKind(Diff(b, a), Removed)
  {
    RemovedIsAddedFlipped(a, b);
    RemovedIsAddedFlipped(b, a);
  }

  lemma {:induction false} ModifiedFlipsAt(a: Version, b: Version, i: nat, j: nat)
    requires a.Valid() && b.Valid() && i < |a.sections| && j < |b.sections|
    requires Partner(a.sections, b.sections, i) == Some(j) && a.SliceAt(i) != b.SliceAt(j)
    ensures BaseChange(a, b, i) == Some(ModifiedAt(a, b, i, j))
    ensures BaseChange(b, a, j) == Some(Flip(ModifiedAt(a, b, i, j)))
  {
    PartnersShareKeyAndRank(a.sections, b.sections, i, j);
    PartnerIsSymmetric(a.sections, b.sections, i, j);
    assert WellFormed(a.text, a.sections[i]) && WellFormed(b.text, b.sections[j]);
  }

  lemma {:induction false} ModifiedFlips(a: Version, b: Version, c: Change)
    requires a.Valid() && b.Valid() && c in Diff(a, b) && c.kind == Modified
    ensures Flip(c) in Diff(b, a)
  {
    var xs := Outcomes(a, b);
    GatherMembers(xs, c);
    var i :| 0 <= i < |xs| && xs[i] == Some(c);
    OutcomeShape(a, b, i);
    match Partner(a.sections, b.sections, i)
    case Some(j) =>
      PartnersShareKeyAndRank(a.sections, b.sections, i, j);
      ModifiedFlipsAt(a, b, i, j);
      var ys := Outcomes(b, a);
      assert ys[j] == BaseChange(b, a, j);
      GatherMembers(ys, Flip(c));
  }

  /** Swapping the versions maps the modified changes onto themselves with their spans swapped. */
  lemma {:induction false} ModifiedIsSelfDual(a: Version, b: Version, c: Change)
    requires a.Valid() && b.Valid() && c.kind == Modified
    ensures c in Diff(a, b) <==> Flip(c) in Diff(b, a)
  {
    if c in Diff(a, b) {
      ModifiedFlips(a, b, c);
    }
    if Flip(c) in Diff(b, a) {
      ModifiedFlips(b, a, Flip(c));
      assert Flip(Flip(c)) == c;
    }
  }
}
