/** The pure parts of a change report: explanations, retrieval queries and impacts (app/services/change_report.py). */
module Report {
  import opened Wrappers
  import opened Text
  import opened Extraction
  import opened Impact
  import opened Diffing
  import opened DiffLaws

  // ----- Explanations -----

  datatype Severity = Low | Medium | High

  datatype Explanation = Explanation(index: int, description: string, severity: Severity)

  datatype ExplainReply = Explained(explanations: seq<Explanation>) | ExplainFailure(error: string)

  /** `{e.index: e for e in explanations}`: a later entry replaces an earlier one. */
  function ByIndex(explanations: seq<Explanation>): map<int, Explanation> {
    if explanations == [] then map[]
    else
      var last := explanations[|explanations| - 1];
      ByIndex(explanations[..|explanations| - 1])[last.index := last]
  }

  /** `set(range(n))`. */
  function Indices(n: nat): (s: set<int>)
    ensures forall i :: i in s <==> 0 <= i < n
  {
    if n == 0 then {} else Indices(n - 1) + {n - 1}
  }

  function ExplainChanges(changes: seq<Change>, reply: ExplainReply): Result<seq<Explanation>, string> {
    if changes == [] then Ok([])
    else
      match reply
      case ExplainFailure(error) => Err(error)
      case Explained(explanations) =>
        var byIndex := ByIndex(explanations);
        if byIndex.Keys != Indices(|changes|) then Err("model output failed change-index validation")
        else Ok(seq(|changes|, i requires 0 <= i < |changes| => assert i in Indices(|changes|); byIndex[i]))
  }

  /** `e` is the last explanation that names its index. */
  ghost predicate LastFor(explanations: seq<Explanation>, e: Explanation) {
    exists k :: 0 <= k < |explanations| && explanations[k] == e
                && forall l :: k < l < |explanations| ==> explanations[l].index != e.index
  }

  predicate Named(explanations: seq<Explanation>, index: int) {
    exists k :: 0 <= k < |explanations| && explanations[k].index == index
  }

  lemma {:induction false} ByIndexNames(explanations: seq<Explanation>, i: int)
    ensures i in ByIndex(explanations) <==> Named(explanations, i)
  {
    if explanations != [] {
      var n := |explanations| - 1;
      ByIndexNames(explanations[..n], i);
      if k :| 0 <= k < n && explanations[k].index == i {
        assert explanations[..n][k].index == i;
      }
    }
  }

  lemma {:induction false} ByIndexKeepsLast(explanations: seq<Explanation>, i: int)
    requires i in ByIndex(explanations)
    ensures ByIndex(explanations)[i].index == i && LastFor(explanations, ByIndex(explanations)[i])
  {
    var n := |explanations| - 1;
    if i == explanations[n].index {
      assert LastFor(explanations, explanations[n]);
    } else {
      var init := explanations[..n];
      ByIndexKeepsLast(init, i);
      var e := ByIndex(init)[i];
      var k :| 0 <= k < n && init[k] == e && forall l :: k < l < n ==> init[l].index != e.index;
      assert explanations[k] == e && forall l :: k < l < n ==> explanations[l] == init[l];
    }
  }

  /**
   * A reply is accepted exactly when every change index and no other is named.
   * Naming one twice is accepted too, and then the last explanation counts.
   */
  lemma {:induction false} ExplainedExactly(changes: seq<Change>, explanations: seq<Explanation>)
    requires changes != []
    ensures var r := ExplainChanges(changes, Explained(explanations));
            && (r.Ok? <==> forall i :: Named(explanations, i) <==> 0 <= i < |changes|)
            && (r.Ok? ==>
                  && |r.value| == |changes|
                  && forall i :: 0 <= i < |changes| ==> r.value[i].index == i && LastFor(explanations, r.value[i]))
  {
    var byIndex := ByIndex(explanations);
    forall i ensures i in byIndex.Keys <==> Named(explanations, i) {
      ByIndexNames(explanations, i);
    }
    if byIndex.Keys == Indices(|changes|) {
      forall i | 0 <= i < |changes| ensures i in byIndex && byIndex[i].index == i && LastFor(explanations, byIndex[i]) {
        assert i in Indices(|changes|);
        ByIndexKeepsLast(explanations, i);
      }
    }
  }

  /** Two explanations of one change pass the validation, although it asks for exactly one. */
  lemma {:induction false} RepeatedExplanationPasses(change: Change, e: Explanation, f: Explanation)
    requires e.index == f.index == 0
    ensures ExplainChanges([change], Explained([e, f])) == Ok([f])
  {
    var changes, explanations := [change], [e, f];
    ExplainedExactly(changes, explanations);
    assert explanations[1].index == 0;
    assert Named(explanations, 0);
    assert ExplainChanges(changes, Explained(explanations)).value == [f];
  }

  /** How often a reply explains change `i`. */
  function Count(explanations: seq<Explanation>, i: int): nat {
    if explanations == [] then 0
    else
      var n := |explanations| - 1;
      if explanations[n].index == i then Count(explanations[..n], i) + 1 else Count(explanations[..n], i)
  }

  lemma {:induction false} CountedIfNamed(explanations: seq<Explanation>, i: int)
    ensures Count(explanations, i) > 0 <==> Named(explanations, i)
  {
    if explanations != [] {
      var n := |explanations| - 1;
      CountedIfNamed(explanations[..n], i);
      if k :| 0 <= k < n && explanations[k].index == i {
        assert explanations[..n][k].index == i;
      }
    }
  }

  /** Explanations of the changes below `n`. */
  function CountBelow(explanations: seq<Explanation>, n: nat): nat {
    if n == 0 then 0 else CountBelow(explanations, n - 1) + Count(explanations, n - 1)
  }

  lemma {:induction false} CountBelowOneMore(explanations: seq<Explanation>, n: nat)
    requires explanations != []
    ensures var m := |explanations| - 1;
            CountBelow(explanations, n)
            == CountBelow(explanations[..m], n) + if 0 <= explanations[m].index < n then 1 else 0
  {
    if n > 0 {
      CountBelowOneMore(explanations, n - 1);
    }
  }

  /** If every entry explains a change below `n`, the entries are counted exactly. */
  lemma {:induction false} CountBelowIsLength(explanations: seq<Explanation>, n: nat)
    requires forall k :: 0 <= k < |explanations| ==> 0 <= explanations[k].index < n
    ensures CountBelow(explanations, n) == |explanations|
  {
    if explanations == [] {
      NothingCounted(n);
    } else {
      CountBelowIsLength(explanations[..|explanations| - 1], n);
      CountBelowOneMore(explanations, n);
    }
  }

  lemma {:induction false} NothingCounted(n: nat)
    ensures CountBelow([], n) == 0
  {
    if n > 0 {
      NothingCounted(n - 1);
    }
  }

  /** With at least one explanation each, `n` changes have `n` explanations exactly when none has two. */
  lemma {:induction false} OnceEachWhenAsMany(explanations: seq<Explanation>, n: nat)
    requires forall i :: 0 <= i < n ==> Count(explanations, i) >= 1
    ensures CountBelow(explanations, n) >= n
    ensures CountBelow(explanations, n) == n <==> forall i :: 0 <= i < n ==> Count(explanations, i) == 1
  {
    if n > 0 {
      OnceEachWhenAsMany(explanations, n - 1);
      if CountBelow(explanations, n) == n {
        forall i | 0 <= i < n ensures Count(explanations, i) == 1 {
          assert i < n - 1 || i == n - 1;
        }
      }
      if forall i :: 0 <= i < n ==> Count(explanations, i) == 1 {
        assert forall i :: 0 <= i < n - 1 ==> Count(explanations, i) == 1;
        assert Count(explanations, n - 1) == 1;
      }
    }
  }

  /**
   * An accepted reply explains every change exactly once, as the refusal message demands, exactly when it has as many
   * explanations as there are changes; it never has fewer.
   */
  lemma {:induction false} OnceEachExactly(changes: seq<Change>, explanations: seq<Explanation>)
    requires changes != [] && ExplainChanges(changes, Explained(explanations)).Ok?
    ensures |explanations| >= |changes|
    ensures (forall i :: 0 <= i < |changes| ==> Count(explanations, i) == 1) <==> |explanations| == |changes|
  {
    var n := |changes|;
    ExplainedExactly(changes, explanations);
    forall i | 0 <= i < n ensures Count(explanations, i) >= 1 {
      CountedIfNamed(explanations, i);
    }
    forall k | 0 <= k < |explanations| ensures 0 <= explanations[k].index < n {
      assert Named(explanations, explanations[k].index);
    }
    CountBelowIsLength(explanations, n);
    OnceEachWhenAsMany(explanations, n);
  }

  /** One explanation for each of the changes below `n` and none beside. */
  ghost predicate OnceEach(explanations: seq<Explanation>, n: nat) {
    forall i :: Count(explanations, i) == if 0 <= i < n then 1 else 0
  }

  /** For replies no longer than the list of changes the validation is exactly what its message says. */
  lemma {:induction false} ShortRepliesAreValidatedExactly(changes: seq<Change>, explanations: seq<Explanation>)
    requires changes != [] && |explanations| <= |changes|
    ensures ExplainChanges(changes, Explained(explanations)).Ok? <==> OnceEach(explanations, |changes|)
  {
    ExplainedExactly(changes, explanations);
    forall i ensures Count(explanations, i) > 0 <==> Named(explanations, i) {
      CountedIfNamed(explanations, i);
    }
    if ExplainChanges(changes, Explained(explanations)).Ok? {
      OnceEachExactly(changes, explanations);
      forall i ensures Count(explanations, i) == if 0 <= i < |changes| then 1 else 0 {
        assert Named(explanations, i) <==> 0 <= i < |changes|;
      }
    }
    if OnceEach(explanations, |changes|) {
      forall i ensures Named(explanations, i) <==> 0 <= i < |changes| {
        assert Count(explanations, i) == if 0 <= i < |changes| then 1 else 0;
      }
    }
  }

  // ----- Retrieval query -----

  function Excerpt(text: string, span: Span): string {
    var cut := Slice(text, span);
    if |cut| <= EXCERPT_LIMIT then cut else cut[..EXCERPT_LIMIT]
  }

  function ImpactQuery(change: Change, baseText: string, amendedText: string): Option<string> {
    if change.amendedSpan.Some? then Some(Excerpt(amendedText, change.amendedSpan.value))
    else if change.baseSpan.Some? then Some(Excerpt(baseText, change.baseSpan.value))
    else None
  }

  lemma {:induction false} ExcerptOfSpan(text: string, span: Span)
    requires span.start < span.end <= |text|
    ensures 0 < |Excerpt(text, span)| <= EXCERPT_LIMIT && Quotes(Some(Excerpt(text, span)), text, Some(span))
  {
  }

  /** The query of a detected change is never missing or empty, and quotes the amended wording unless it was removed. */
  lemma {:induction false} QueryIsNeverEmpty(baseText: string, amendedText: string, change: Change)
    requires change in Diff(VersionOf(baseText), VersionOf(amendedText))
    ensures var q := ImpactQuery(change, baseText, amendedText);
            && q.Some? && 0 < |q.value| <= EXCERPT_LIMIT
            && if change.kind == Removed then Quotes(q, baseText, change.baseSpan)
               else Quotes(q, amendedText, change.amendedSpan)
  {
    DiffIsShapedAndOrdered(VersionOf(baseText), VersionOf(amendedText));
    assert Shaped(change, baseText, amendedText);
    if change.kind == Removed {
      ExcerptOfSpan(baseText, change.baseSpan.value);
    } else {
      ExcerptOfSpan(amendedText, change.amendedSpan.value);
    }
  }

  // ----- Impacts of every change -----

  /** What the outside world answers for change `i`: the retrieved chunks, or why the search failed, and the mapping. */
  datatype Oracle = Oracle(recall: nat -> Result<seq<Hit>, string>, mapping: nat -> MappingReply)

  function ImpactsOfChange(
      query: Option<string>, obligations: seq<Obligation>, o: Oracle, i: nat)
    : Result<seq<(Obligation, real)>, string> {
    if query.None? then MapReply(Selected(obligations, [], CANDIDATE_LIMIT), o.mapping(i))
    else if o.recall(i).Err? then Err(o.recall(i).error)
    else MapReply(Selected(obligations, o.recall(i).value, CANDIDATE_LIMIT), o.mapping(i))
  }

  /** One search and one mapping call per change, in order; the first failure ends it. */
  function ImpactsOfChanges(
      changes: seq<Change>, baseText: string, amendedText: string, obligations: seq<Obligation>, o: Oracle)
    : Result<seq<seq<(Obligation, real)>>, string>
  {
    if changes == [] then Ok([])
    else
      var n := |changes| - 1;
      match ImpactsOfChanges(changes[..n], baseText, amendedText, obligations, o)
      case Err(error) => Err(error)
      case Ok(before) =>
        match ImpactsOfChange(ImpactQuery(changes[n], baseText, amendedText), obligations, o, n)
        case Err(error) => Err(error)
        case Ok(impacts) => Ok(before + [impacts])
  }

  function MapAll(
      changes: seq<Change>, baseText: string, amendedText: string, obligations: seq<Obligation>, o: Oracle)
    : Result<seq<seq<(Obligation, real)>>, string>
  {
    if obligations == [] then Ok(seq(|changes|, _ => []))
    else ImpactsOfChanges(changes, baseText, amendedText, obligations, o)
  }

  lemma {:induction false} FailureStays(
      changes: seq<Change>, baseText: string, amendedText: string, obligations: seq<Obligation>, o: Oracle, n: nat)
    requires n <= |changes| && ImpactsOfChanges(changes[..n], baseText, amendedText, obligations, o).Err?
    ensures ImpactsOfChanges(changes, baseText, amendedText, obligations, o)
            == ImpactsOfChanges(changes[..n], baseText, amendedText, obligations, o)
  {
    if n < |changes| {
      var m := |changes| - 1;
      assert changes[..m][..n] == changes[..n];
      FailureStays(changes[..m], baseText, amendedText, obligations, o, n);
    } else {
      assert changes[..n] == changes;
    }
  }

  method MapImpacts(
      changes: seq<Change>, baseText: string, amendedText: string, obligations: seq<Obligation>, o: Oracle)
    returns (r: Result<seq<seq<(Obligation, real)>>, string>)
    ensures r == MapAll(changes, baseText, amendedText, obligations, o)
  {
    if obligations == [] {
      return Ok(seq(|changes|, _ => []));
    }
    var perChange: seq<seq<(Obligation, real)>> := [];
    for i := 0 to |changes|
      invariant ImpactsOfChanges(changes[..i], baseText, amendedText, obligations, o) == Ok(perChange)
    {
      assert changes[..i + 1][..i] == changes[..i];
      var query := ImpactQuery(changes[i], baseText, amendedText);
      var hits := if query.Some? then o.recall(i) else Ok([]);
      if hits.Err? {
        FailureStays(changes, baseText, amendedText, obligations, o, i + 1);
        return Err(hits.error);
      }
      var candidates := SelectCandidates(obligations, hits.value, CANDIDATE_LIMIT);
      var mapped := MapChangeImpacts(candidates, o.mapping(i));
      if mapped.Err? {
        FailureStays(changes, baseText, amendedText, obligations, o, i + 1);
        return Err(mapped.error);
      }
      perChange := perChange + [mapped.value];
    }
    assert changes[..|changes|] == changes;
    return Ok(perChange);
  }

  /** An impact that names an obligation whose citation overlaps one of the retrieved chunks. */
  ghost predicate Recalled(impact: (Obligation, real), obligations: seq<Obligation>, hits: Result<seq<Hit>, string>) {
    hits.Ok? && impact.0 in obligations && OverlapsSome(impact.0.citation, hits.value)
  }

  lemma {:induction false} SelectedAreRecalled(obligations: seq<Obligation>, hits: seq<Hit>, limit: int)
    ensures forall o <- Selected(obligations, hits, limit) :: o in obligations && OverlapsSome(o.citation, hits)
  {
    CandidatesAreExact(obligations, hits);
    CandidatesInRange(obligations, hits, limit);
    var all, selected := Candidates(obligations, hits), Selected(obligations, hits, limit);
    var positions := Capped(all, limit);
    forall o | o in selected ensures o in obligations && OverlapsSome(o.citation, hits) {
      var r :| 0 <= r < |selected| && selected[r] == o;
      assert positions[r] in all;
    }
  }

  lemma {:induction false} MappedAreCandidates(candidates: seq<Obligation>, reply: MappingReply)
    ensures var r := MapReply(candidates, reply); r.Ok? ==> forall impact <- r.value :: impact.0 in candidates
  {
    var r := MapReply(candidates, reply);
    if r.Ok? && candidates != [] {
      var mentions := FirstMentions(reply.impacts);
      FirstMentionsMeans(reply.impacts);
      forall impact | impact in r.value ensures impact.0 in candidates {
        var k :| 0 <= k < |r.value| && r.value[k] == impact;
        assert InRange(mentions[k], |candidates|);
      }
    }
  }

  lemma {:induction false} ChangeIsRecalled(query: Option<string>, obligations: seq<Obligation>, o: Oracle, i: nat)
    requires ImpactsOfChange(query, obligations, o, i).Ok?
    ensures forall impact <- ImpactsOfChange(query, obligations, o, i).value ::
            Recalled(impact, obligations, o.recall(i))
  {
    var hits := if query.Some? then o.recall(i).value else [];
    SelectedAreRecalled(obligations, hits, CANDIDATE_LIMIT);
    MappedAreCandidates(Selected(obligations, hits, CANDIDATE_LIMIT), o.mapping(i));
  }

  lemma {:induction false} LastImpacts(
      changes: seq<Change>, baseText: string, amendedText: string, obligations: seq<Obligation>, o: Oracle)
    requires changes != [] && ImpactsOfChanges(changes, baseText, amendedText, obligations, o).Ok?
    ensures var n := |changes| - 1;
            var before := ImpactsOfChanges(changes[..n], baseText, amendedText, obligations, o);
            var last := ImpactsOfChange(ImpactQuery(changes[n], baseText, amendedText), obligations, o, n);
            && before.Ok? && last.Ok?
            && ImpactsOfChanges(changes, baseText, amendedText, obligations, o).value == before.value + [last.value]
  {
  }

  /** Every reported impact, of whichever change, names an obligation that its own search recalled. */
  lemma {:induction false} ImpactsAreRecalled(
      changes: seq<Change>, baseText: string, amendedText: string, obligations: seq<Obligation>, o: Oracle, i: nat)
    requires ImpactsOfChanges(changes, baseText, amendedText, obligations, o).Ok? && i < |changes|
    ensures var impacts := ImpactsOfChanges(changes, baseText, amendedText, obligations, o).value;
            |impacts| == |changes| && forall impact <- impacts[i] :: Recalled(impact, obligations, o.recall(i))
  {
    var n := |changes| - 1;
    LastImpacts(changes, baseText, amendedText, obligations, o);
    if n > 0 {
      ImpactsAreRecalled(changes[..n], baseText, amendedText, obligations, o, if i < n then i else 0);
    }
    if i == n {
      ChangeIsRecalled(ImpactQuery(changes[n], baseText, amendedText), obligations, o, n);
    }
  }

  // ----- The whole report -----

  /** The excerpts are copies of the changed wording, so the report can be read without the texts. */
  datatype ReportEntry = ReportEntry(
    change: Change, baseExcerpt: Option<string>, amendedExcerpt: Option<string>, explanation: Explanation,
    impacts: seq<(Obligation, real)>)

  function ExcerptAt(text: string, span: Option<Span>): Option<string> {
    if span.Some? then Some(Excerpt(text, span.value)) else None
  }

  /** The excerpt is the beginning of the spanned text, all of it unless that is too long. */
  predicate Quotes(excerpt: Option<string>, text: string, span: Option<Span>) {
    if span.None? then excerpt.None?
    else
      excerpt.Some? && excerpt.value <= Slice(text, span.value)
      && (excerpt.value == Slice(text, span.value) || |excerpt.value| == EXCERPT_LIMIT < |Slice(text, span.value)|)
  }

  lemma {:induction false} ExcerptQuotes(text: string, span: Option<Span>)
    ensures Quotes(ExcerptAt(text, span), text, span)
  {
  }

  lemma {:induction false} OneListPerChange(
      changes: seq<Change>, baseText: string, amendedText: string, obligations: seq<Obligation>, o: Oracle)
    ensures var r := MapAll(changes, baseText, amendedText, obligations, o); r.Ok? ==> |r.value| == |changes|
  {
    if obligations != [] && changes != [] && MapAll(changes, baseText, amendedText, obligations, o).Ok? {
      ImpactsAreRecalled(changes, baseText, amendedText, obligations, o, 0);
    }
  }

  /** The three lists are zipped; explanations fail before any search is made. */
  function ReportOf(
      baseText: string, amendedText: string, obligations: seq<Obligation>, explained: ExplainReply, o: Oracle)
    : (r: Result<seq<ReportEntry>, string>)
    ensures r.Ok? ==> |r.value| == |Diff(VersionOf(baseText), VersionOf(amendedText))|
  {
    var changes := Diff(VersionOf(baseText), VersionOf(amendedText));
    var explanations := ExplainChanges(changes, explained);
    if explanations.Err? then Err(explanations.error)
    else
      OneListPerChange(changes, baseText, amendedText, obligations, o);
      var impacts := MapAll(changes, baseText, amendedText, obligations, o);
      if impacts.Err? then Err(impacts.error)
      else
        Ok(seq(|changes|, i requires 0 <= i < |changes| =>
          var c := changes[i];
          ReportEntry(
            c, ExcerptAt(baseText, c.baseSpan), ExcerptAt(amendedText, c.amendedSpan), explanations.value[i],
            impacts.value[i])))
  }

  method BuildReport(
      baseText: string, amendedText: string, obligations: seq<Obligation>, explained: ExplainReply, o: Oracle)
    returns (r: Result<seq<ReportEntry>, string>)
    ensures r == ReportOf(baseText, amendedText, obligations, explained, o)
  {
    var changes := DetectChanges(baseText, amendedText);
    var explanations := ExplainChanges(changes, explained);
    if explanations.Err? {
      return Err(explanations.error);
    }
    OneListPerChange(changes, baseText, amendedText, obligations, o);
    var impacts := MapImpacts(changes, baseText, amendedText, obligations, o);
    if impacts.Err? {
      return Err(impacts.error);
    }
    return Ok(seq(|changes|, i requires 0 <= i < |changes| =>
      var c := changes[i];
      ReportEntry(
        c, ExcerptAt(baseText, c.baseSpan), ExcerptAt(amendedText, c.amendedSpan), explanations.value[i],
        impacts.value[i])));
  }
}
