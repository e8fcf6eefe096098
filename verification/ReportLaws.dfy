/** What a change report says of each change (app/services/change_report.py). */
module ReportLaws {
  import opened Wrappers
  import opened Text
  import opened Extraction
  import opened Impact
  import opened Diffing
  import opened DiffLaws
  import opened Report

  // ----- Each change is mapped by its own call -----

  /** What the search of change `i` recalled, cut to the candidates offered to the model. */
  function CandidatesFor(obligations: seq<Obligation>, o: Oracle, i: nat): seq<Obligation>
    requires o.recall(i).Ok?
  {
    Selected(obligations, o.recall(i).value, CANDIDATE_LIMIT)
  }

  /** Search and mapping of change `i` both work. */
  predicate Maps(obligations: seq<Obligation>, o: Oracle, i: nat) {
    o.recall(i).Ok? && MapReply(CandidatesFor(obligations, o, i), o.mapping(i)).Ok?
  }

  /** Why it failed. */
  function FailureOf(obligations: seq<Obligation>, o: Oracle, i: nat): string
    requires !Maps(obligations, o, i)
  {
    if o.recall(i).Err? then o.recall(i).error else MapReply(CandidatesFor(obligations, o, i), o.mapping(i)).error
  }

  ghost predicate AllSpanned(changes: seq<Change>) {
    forall c <- changes :: c.baseSpan.Some? || c.amendedSpan.Some?
  }

  /** Either all changes are mapped, each by its own search and reply, or the first that is not decides. */
  ghost predicate MappedInOrder(
      n: nat, obligations: seq<Obligation>, o: Oracle, r: Result<seq<seq<(Obligation, real)>>, string>) {
    if r.Ok? then
      && |r.value| == n
      && forall i :: 0 <= i < n ==>
           Maps(obligations, o, i) && r.value[i] == MapReply(CandidatesFor(obligations, o, i), o.mapping(i)).value
    else exists i: nat :: FailsAt(n, obligations, o, i, r.error)
  }

  ghost predicate FailsAt(n: nat, obligations: seq<Obligation>, o: Oracle, i: nat, error: string) {
    && i < n && !Maps(obligations, o, i) && error == FailureOf(obligations, o, i)
    && forall j: nat :: j < i ==> Maps(obligations, o, j)
  }

  lemma {:induction false} ChangesMapInOrder(
      changes: seq<Change>, baseText: string, amendedText: string, obligations: seq<Obligation>, o: Oracle)
    requires AllSpanned(changes)
    ensures MappedInOrder(|changes|, obligations, o,
              ImpactsOfChanges(changes, baseText, amendedText, obligations, o))
  {
    if changes != [] {
      var n := |changes| - 1;
      ChangesMapInOrder(changes[..n], baseText, amendedText, obligations, o);
      var before := ImpactsOfChanges(changes[..n], baseText, amendedText, obligations, o);
      if before.Err? {
        var i: nat :| FailsAt(n, obligations, o, i, before.error);
        assert FailsAt(n + 1, obligations, o, i, before.error);
      } else {
        LastChangeMaps(changes, baseText, amendedText, obligations, o);
      }
    }
  }

  lemma {:induction false} LastChangeMaps(
      changes: seq<Change>, baseText: string, amendedText: string, obligations: seq<Obligation>, o: Oracle)
    requires changes != [] && AllSpanned(changes)
    requires var before := ImpactsOfChanges(changes[..|changes| - 1], baseText, amendedText, obligations, o);
             before.Ok? && MappedInOrder(|changes| - 1, obligations, o, before)
    ensures MappedInOrder(|changes|, obligations, o,
              ImpactsOfChanges(changes, baseText, amendedText, obligations, o))
  {
    var n := |changes| - 1;
    assert changes[n] in changes;
    var last := ImpactsOfChange(ImpactQuery(changes[n], baseText, amendedText), obligations, o, n);
    if Maps(obligations, o, n) {
      assert last == MapReply(CandidatesFor(obligations, o, n), o.mapping(n));
    } else {
      assert FailsAt(n + 1, obligations, o, n, last.error);
    }
  }

  // ----- The whole report -----

  /** The reported obligation was mentioned in the reply with this confidence. */
  ghost predicate MentionedIn(impact: (Obligation, real), reply: MappingReply) {
    reply.Mapping? && exists m <- reply.impacts :: m.confidence == impact.1
  }

  /** Entry `i` explains and maps change `i` by what was answered for that very change. */
  ghost predicate Answers(
      entry: ReportEntry, i: nat, obligations: seq<Obligation>, explained: ExplainReply, o: Oracle) {
    && explained.Explained? && entry.explanation.index == i && LastFor(explained.explanations, entry.explanation)
    && (obligations == [] ==> entry.impacts == [])
    && (obligations != [] ==>
          Maps(obligations, o, i) && entry.impacts == MapReply(CandidatesFor(obligations, o, i), o.mapping(i)).value)
    && forall impact <- entry.impacts :: Recalled(impact, obligations, o.recall(i)) && MentionedIn(impact, o.mapping(i))
  }

  lemma {:induction false} MappedAreMentioned(obligations: seq<Obligation>, o: Oracle, i: nat)
    requires Maps(obligations, o, i)
    ensures forall impact <- MapReply(CandidatesFor(obligations, o, i), o.mapping(i)).value ::
              Recalled(impact, obligations, o.recall(i)) && MentionedIn(impact, o.mapping(i))
  {
    var candidates, reply := CandidatesFor(obligations, o, i), o.mapping(i);
    var impacts := MapReply(candidates, reply).value;
    SelectedAreRecalled(obligations, o.recall(i).value, CANDIDATE_LIMIT);
    MappedAreCandidates(candidates, reply);
    var at := MapReplyIsExact(candidates, reply);
    forall impact | impact in impacts ensures MentionedIn(impact, reply) {
      var k :| 0 <= k < |impacts| && impacts[k] == impact;
      assert reply.impacts[at[k]] in reply.impacts;
    }
  }

  lemma {:induction false} DetectedAreSpanned(baseText: string, amendedText: string)
    ensures AllSpanned(Diff(VersionOf(baseText), VersionOf(amendedText)))
  {
    var changes := Diff(VersionOf(baseText), VersionOf(amendedText));
    DiffIsShapedAndOrdered(VersionOf(baseText), VersionOf(amendedText));
    forall c | c in changes ensures c.baseSpan.Some? || c.amendedSpan.Some? {
      assert Shaped(c, baseText, amendedText);
    }
  }

  /** In every report entry `i` is about change `i`: its excerpts, its explanation and its own impacts. */
  lemma {:induction false} EntriesAnswerTheirChanges(
      baseText: string, amendedText: string, obligations: seq<Obligation>, explained: ExplainReply, o: Oracle, i: nat)
    requires ReportOf(baseText, amendedText, obligations, explained, o).Ok?
    requires i < |ReportOf(baseText, amendedText, obligations, explained, o).value|
    ensures var entry := ReportOf(baseText, amendedText, obligations, explained, o).value[i];
            var changes := Diff(VersionOf(baseText), VersionOf(amendedText));
            && i < |changes| && entry.change == changes[i]
            && Quotes(entry.baseExcerpt, baseText, changes[i].baseSpan)
            && Quotes(entry.amendedExcerpt, amendedText, changes[i].amendedSpan)
            && Answers(entry, i, obligations, explained, o)
  {
    var changes := Diff(VersionOf(baseText), VersionOf(amendedText));
    DetectedAreSpanned(baseText, amendedText);
    ExcerptQuotes(baseText, changes[i].baseSpan);
    ExcerptQuotes(amendedText, changes[i].amendedSpan);
    if explained.Explained? {
      ExplainedExactly(changes, explained.explanations);
    }
    if obligations != [] {
      ChangesMapInOrder(changes, baseText, amendedText, obligations, o);
      MappedAreMentioned(obligations, o, i);
    }
  }

  /**
   * A report comes about exactly when the explanations are accepted and, unless there are no obligations to map, every
   * change is searched and mapped. Otherwise the explanations' failure or else that of the first change is returned.
   */
  lemma {:induction false} ReportSucceedsExactly(
      baseText: string, amendedText: string, obligations: seq<Obligation>, explained: ExplainReply, o: Oracle)
    ensures var r := ReportOf(baseText, amendedText, obligations, explained, o);
            var changes := Diff(VersionOf(baseText), VersionOf(amendedText));
            var explanations := ExplainChanges(changes, explained);
            && (r.Ok? <==>
                  explanations.Ok? && (obligations == [] || forall i: nat :: i < |changes| ==> Maps(obligations, o, i)))
            && (explanations.Err? ==> r == Err(explanations.error))
            && (explanations.Ok? && r.Err? ==> exists i: nat :: FailsAt(|changes|, obligations, o, i, r.error))
  {
    var changes := Diff(VersionOf(baseText), VersionOf(amendedText));
    DetectedAreSpanned(baseText, amendedText);
    ChangesMapInOrder(changes, baseText, amendedText, obligations, o);
  }
}
