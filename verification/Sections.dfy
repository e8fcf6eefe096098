/** Clause sections: paragraphs grouped under the numbered paragraph before them (app/services/diffing.py). */
module Sections {
  import opened Wrappers
  import opened Paragraphs
  import opened ClauseKeys

  datatype Section = Section(key: Option<Key>, clauseRef: Option<string>, start: nat, end: nat)

  /** `text.split("\n", 1)[0]`. */
  function FirstLine(text: string): string {
    if text == "" || text[0] == '\n' then "" else [text[0]] + FirstLine(text[1..])
  }

  /** The section a paragraph would open. */
  function Alone(p: Para): Section {
    var key := ClauseKey(FirstLine(p.text));
    Section(key, ClauseRef(key), p.start, p.end)
  }

  function AllAlone(ps: seq<Para>): seq<Section> {
    seq(|ps|, i requires 0 <= i < |ps| => Alone(ps[i]))
  }

  /** A keyed paragraph opens a section; any other extends the section before it, if there is one. */
  function Attach(sections: seq<Section>, p: Section): seq<Section> {
    if p.key.None? && sections != [] then
      var last := sections[|sections| - 1];
      sections[..|sections| - 1] + [Section(last.key, last.clauseRef, last.start, p.end)]
    else sections + [p]
  }

  function Group(ps: seq<Section>): seq<Section> {
    if ps == [] then [] else Attach(Group(ps[..|ps| - 1]), ps[|ps| - 1])
  }

  function SectionsOf(text: string): seq<Section> {
    Group(AllAlone(ParagraphsOf(text)))
  }

  method FindSections(text: string) returns (sections: seq<Section>)
    ensures sections == SectionsOf(text)
  {
    var ps := ScanParagraphs(text);
    ghost var alone := AllAlone(ps);
    sections := [];
    for i := 0 to |ps|
      invariant sections == Group(alone[..i])
    {
      assert alone[..i + 1][..i] == alone[..i];
      var key := ClauseKey(FirstLine(ps[i].text));
      if key.None? && sections != [] {
        var previous := sections[|sections| - 1];
        sections := sections[..|sections| - 1] + [Section(previous.key, previous.clauseRef, previous.start, ps[i].end)];
        continue;
      }
      sections := sections + [Section(key, ClauseRef(key), ps[i].start, ps[i].end)];
    }
    assert alone[..|ps|] == alone;
  }

  // ----- Sections partition the paragraphs -----

  predicate Opens(ps: seq<Section>, i: nat) {
    i < |ps| && (i == 0 || ps[i].key.Some?)
  }

  /** Positions of the paragraphs that open a section. */
  function Openers(ps: seq<Section>): seq<nat> {
    if ps == [] then []
    else
      var before := Openers(ps[..|ps| - 1]);
      if Opens(ps, |ps| - 1) then before + [|ps| - 1] else before
  }

  /** One past the last paragraph of the `k`-th run. */
  function RunStop(ps: seq<Section>, openers: seq<nat>, k: nat): nat {
    if k + 1 < |openers| then openers[k + 1] else |ps|
  }

  /** Section `k` spans exactly the paragraphs from its opener to the next one. */
  ghost predicate SpansRun(ps: seq<Section>, openers: seq<nat>, s: Section, k: nat)
    requires k < |openers|
  {
    var first, stop := openers[k], RunStop(ps, openers, k);
    && first < stop <= |ps|
    && s.start == ps[first].start && s.end == ps[stop - 1].end
    && s.key == ps[first].key && s.clauseRef == ps[first].clauseRef
  }

  ghost predicate Ascending(xs: seq<nat>) {
    forall i, j :: 0 <= i < j < |xs| ==> xs[i] < xs[j]
  }

  lemma {:induction false} OpenersAreExact(ps: seq<Section>)
    ensures Ascending(Openers(ps))
    ensures forall i :: i in Openers(ps) <==> Opens(ps, i)
    ensures ps != [] ==> Openers(ps) != [] && Openers(ps)[0] == 0
  {
    if ps != [] {
      var n := |ps| - 1;
      var init := ps[..n];
      var before := Openers(init);
      OpenersAreExact(init);
      forall k | 0 <= k < |before| ensures before[k] < n {
        assert Opens(init, before[k]);
      }
      forall i: nat ensures i in Openers(ps) <==> Opens(ps, i) {
        assert i < n ==> (Opens(init, i) <==> Opens(ps, i));
      }
    }
  }

  /** `sections` are exactly the runs that `openers` begin in `ps`. */
  ghost predicate Runs(ps: seq<Section>, openers: seq<nat>, sections: seq<Section>) {
    && |sections| == |openers|
    && (ps == [] <==> sections == [])
    && forall k :: 0 <= k < |openers| ==> SpansRun(ps, openers, sections[k], k)
  }

  lemma {:induction false} ExtendLastRun(ps: seq<Section>, openers: seq<nat>, sections: seq<Section>, p: Section)
    requires Runs(ps, openers, sections) && sections != [] && p.key.None?
    ensures Runs(ps + [p], openers, Attach(sections, p))
  {
    var longer := Attach(sections, p);
    forall k | 0 <= k < |openers| ensures SpansRun(ps + [p], openers, longer[k], k) {
      assert SpansRun(ps, openers, sections[k], k);
    }
  }

  lemma {:induction false} SectionsPartition(ps: seq<Section>)
    ensures Runs(ps, Openers(ps), Group(ps))
  {
    if ps != [] {
      var init, p := ps[..|ps| - 1], ps[|ps| - 1];
      assert ps == init + [p];
      SectionsPartition(init);
      if !Opens(ps, |ps| - 1) {
        ExtendLastRun(init, Openers(init), Group(init), p);
      }
    }
  }

  /** Ordered, disjoint, non-empty sections of one text; only the first may be unnumbered. */
  ghost predicate WellSectioned(text: string, sections: seq<Section>) {
    && (forall i :: 0 <= i < |sections| ==> WellFormed(text, sections[i]))
    && (forall i, j :: 0 <= i < j < |sections| ==> sections[i].end < sections[j].start)
    && (forall i :: 0 < i < |sections| ==> sections[i].key.Some?)
  }

  ghost predicate WellFormed(text: string, s: Section) {
    s.start < s.end <= |text| && Proper(s.key) && s.clauseRef == ClauseRef(s.key)
  }

  lemma {:induction false} AloneIsWellFormed(text: string, p: Para)
    requires WellCut(text, p)
    ensures WellFormed(text, Alone(p))
  {
    KeysAreProper(FirstLine(p.text));
  }

  lemma {:induction false} RunIsWellFormed(text: string, ps: seq<Section>, i: nat)
    requires forall k :: 0 <= k < |ps| ==> WellFormed(text, ps[k])
    requires forall k, l :: 0 <= k < l < |ps| ==> ps[k].end < ps[l].start
    requires i < |Group(ps)|
    ensures WellFormed(text, Group(ps)[i])
    ensures i > 0 ==> Group(ps)[i].key.Some?
    ensures forall j :: i < j < |Group(ps)| ==> Group(ps)[i].end < Group(ps)[j].start
  {
    var openers, sections := Openers(ps), Group(ps);
    SectionsPartition(ps);
    OpenersAreExact(ps);
    assert SpansRun(ps, openers, sections[i], i);
    var first, stop := openers[i], RunStop(ps, openers, i);
    assert Opens(ps, openers[i]);
    assert WellFormed(text, ps[first]) && WellFormed(text, ps[stop - 1]);
    forall j | i < j < |sections| ensures sections[i].end < sections[j].start {
      assert SpansRun(ps, openers, sections[j], j);
      assert stop <= openers[j];
    }
  }

  lemma {:induction false} SectionsAreWellFormed(text: string)
    ensures WellSectioned(text, SectionsOf(text))
  {
    var paras := ParagraphsOf(text);
    var ps := AllAlone(paras);
    ParagraphsAreCuts(text, 0);
    forall k | 0 <= k < |ps| ensures WellFormed(text, ps[k]) {
      AloneIsWellFormed(text, paras[k]);
    }
    forall i | 0 <= i < |Group(ps)|
      ensures WellFormed(text, Group(ps)[i]) && (i > 0 ==> Group(ps)[i].key.Some?)
      ensures forall j :: i < j < |Group(ps)| ==> Group(ps)[i].end < Group(ps)[j].start
    {
      RunIsWellFormed(text, ps, i);
    }
  }

  // ----- The keys come from the text -----

  /** `line` is what stands before the first newline, or everything. */
  ghost predicate IsFirstLine(text: string, line: string) {
    (forall c <- line :: c != '\n') && (text == line || line + "\n" <= text)
  }

  lemma {:induction false} FirstLineIsOne(text: string)
    ensures IsFirstLine(text, FirstLine(text))
  {
    if text != "" && text[0] != '\n' {
      var rest := FirstLine(text[1..]);
      FirstLineIsOne(text[1..]);
      assert text == [text[0]] + text[1..];
      if text[1..] != rest {
        assert [text[0]] + (rest + "\n") == FirstLine(text) + "\n";
      }
    }
  }

  lemma {:induction false} FirstLineIsOnly(text: string, line: string)
    requires IsFirstLine(text, line)
    ensures line == FirstLine(text)
  {
    if line != "" {
      assert line[0] in line && text[0] == line[0];
      if text != line {
        assert (line + "\n")[1..] == line[1..] + "\n";
        assert line[1..] + "\n" <= text[1..];
      }
      assert line == [line[0]] + line[1..];
      forall c | c in line[1..] ensures c != '\n' {
        assert c in line;
      }
      FirstLineIsOnly(text[1..], line[1..]);
    }
  }

  /** The paragraph has this key, read off its first line. */
  ghost predicate HasKey(p: Para, key: Option<Key>) {
    forall line :: IsFirstLine(p.text, line) ==> ClauseKey(line) == key
  }

  lemma {:induction false} AloneHasKey(p: Para, key: Option<Key>)
    ensures HasKey(p, key) <==> Alone(p).key == key
  {
    FirstLineIsOne(p.text);
    forall line | IsFirstLine(p.text, line) ensures line == FirstLine(p.text) {
      FirstLineIsOnly(p.text, line);
    }
  }

  /** Section `k` begins with paragraph `i`, whose first line gives its key, and ends with the paragraph before `j`. */
  ghost predicate IsSectionOf(paragraphs: seq<Para>, s: Section, i: nat, j: nat) {
    && i < j <= |paragraphs|
    && s.start == paragraphs[i].start && s.end == paragraphs[j - 1].end
    && HasKey(paragraphs[i], s.key) && s.clauseRef == ClauseRef(s.key)
  }

  /** `openers` are the first paragraph and those that have a key. */
  ghost predicate OpenAtKeys(paragraphs: seq<Para>, openers: seq<nat>) {
    && Ascending(openers)
    && forall i: nat :: i in openers <==> i < |paragraphs| && (i == 0 || !HasKey(paragraphs[i], None))
  }

  lemma {:induction false} OpenersAreKeyed(ps: seq<Para>)
    ensures OpenAtKeys(ps, Openers(AllAlone(ps)))
  {
    var alone := AllAlone(ps);
    OpenersAreExact(alone);
    forall i: nat ensures i in Openers(alone) <==> i < |ps| && (i == 0 || !HasKey(ps[i], None)) {
      assert i in Openers(alone) <==> Opens(alone, i);
      if i < |ps| {
        AloneHasKey(ps[i], None);
      }
    }
  }

  /** The paragraph at which the section after `k` begins, if any. */
  function NextOpener(paragraphs: seq<Para>, openers: seq<nat>, k: nat): nat {
    if k + 1 < |openers| then openers[k + 1] else |paragraphs|
  }

  ghost predicate AreSections(paragraphs: seq<Para>, openers: seq<nat>, sections: seq<Section>) {
    && |sections| == |openers|
    && forall k :: 0 <= k < |openers| ==>
         IsSectionOf(paragraphs, sections[k], openers[k], NextOpener(paragraphs, openers, k))
  }

  /** `a` is the section the paragraph opens. */
  ghost predicate StandsFor(p: Para, a: Section) {
    a.start == p.start && a.end == p.end && HasKey(p, a.key) && a.clauseRef == ClauseRef(a.key)
  }

  lemma {:induction false} RunIsSection(ps: seq<Para>, first: Section, last: Section, s: Section, i: nat, j: nat)
    requires i < j <= |ps| && StandsFor(ps[i], first) && StandsFor(ps[j - 1], last)
    requires s == Section(first.key, first.clauseRef, first.start, last.end)
    ensures IsSectionOf(ps, s, i, j)
  {
  }

  lemma {:induction false} AloneStands(p: Para)
    ensures StandsFor(p, Alone(p))
  {
    AloneHasKey(p, Alone(p).key);
  }

  lemma {:induction false} RunsAreSections(
      ps: seq<Para>, alone: seq<Section>, openers: seq<nat>, sections: seq<Section>)
    requires |alone| == |ps| && forall i :: 0 <= i < |ps| ==> StandsFor(ps[i], alone[i])
    requires Runs(alone, openers, sections)
    ensures AreSections(ps, openers, sections)
  {
    forall k | 0 <= k < |openers| ensures IsSectionOf(ps, sections[k], openers[k], NextOpener(ps, openers, k)) {
      assert SpansRun(alone, openers, sections[k], k);
      var i, j := openers[k], NextOpener(ps, openers, k);
      RunIsSection(ps, alone[i], alone[j - 1], sections[k], i, j);
    }
  }

  lemma {:induction false} GroupsAreSections(ps: seq<Para>)
    ensures AreSections(ps, Openers(AllAlone(ps)), Group(AllAlone(ps)))
  {
    forall i | 0 <= i < |ps| ensures StandsFor(ps[i], AllAlone(ps)[i]) {
      AloneStands(ps[i]);
    }
    SectionsPartition(AllAlone(ps));
    RunsAreSections(ps, AllAlone(ps), Openers(AllAlone(ps)), Group(AllAlone(ps)));
  }

  /**
   * In every text the sections begin exactly at the first paragraph and at those whose first line is a clause number
   * or a heading, each under the key of that line, and each runs up to the next one.
   */
  lemma {:induction false} SectionsFollowLines(text: string) returns (openers: seq<nat>)
    ensures OpenAtKeys(ParagraphsOf(text), openers)
    ensures AreSections(ParagraphsOf(text), openers, SectionsOf(text))
  {
    openers := Openers(AllAlone(ParagraphsOf(text)));
    OpenersAreKeyed(ParagraphsOf(text));
    GroupsAreSections(ParagraphsOf(text));
  }

  /** Every paragraph has exactly one key. */
  lemma {:induction false} KeyIsUnique(p: Para) returns (key: Option<Key>)
    ensures forall other :: HasKey(p, other) <==> other == key
  {
    key := Alone(p).key;
    forall other ensures HasKey(p, other) <==> other == key {
      AloneHasKey(p, other);
    }
  }
}
