/** The citation gate over model replies (app/services/extraction.py). */
module Extraction {
  import opened Wrappers

  const CITATION_ATTEMPTS: nat := 2

  /** A model-reported character span; nothing is known of the numbers. */
  datatype Citation = Citation(charStart: int, charEnd: int)

  datatype Obligation = Obligation(
    clauseRef: string, description: string, owner: Option<string>, citation: Citation, confidence: real)

  datatype DefinedTerm = DefinedTerm(term: string, definition: string, citation: Citation, confidence: real)

  datatype ObligationExtraction = ObligationExtraction(obligations: seq<Obligation>, definedTerms: seq<DefinedTerm>)

  datatype Reply = Parsed(data: ObligationExtraction) | LlmFailure(error: string)

  predicate Grounded(c: Citation, text: string) {
    0 <= c.charStart < c.charEnd <= |text|
  }

  ghost predicate AllGrounded(e: ObligationExtraction, text: string) {
    && (forall o <- e.obligations :: Grounded(o.citation, text))
    && (forall t <- e.definedTerms :: Grounded(t.citation, text))
  }

  // ----- Splitting a reply -----

  datatype Item = AnObligation(obligation: Obligation) | ATerm(term: DefinedTerm) {
    function Cites(): Citation {
      match this
      case AnObligation(o) => o.citation
      case ATerm(t) => t.citation
    }
  }

  function ItemsOf(e: ObligationExtraction): seq<Item> {
    seq(|e.obligations|, i requires 0 <= i < |e.obligations| => AnObligation(e.obligations[i]))
    + seq(|e.definedTerms|, i requires 0 <= i < |e.definedTerms| => ATerm(e.definedTerms[i]))
  }

  function ObligationsIn(items: seq<Item>): seq<Obligation> {
    if items == [] then []
    else
      var init, last := ObligationsIn(items[..|items| - 1]), items[|items| - 1];
      if last.AnObligation? then init + [last.obligation] else init
  }

  function TermsIn(items: seq<Item>): seq<DefinedTerm> {
    if items == [] then []
    else
      var init, last := TermsIn(items[..|items| - 1]), items[|items| - 1];
      if last.ATerm? then init + [last.term] else init
  }

  function GroundedIn(items: seq<Item>, text: string): seq<Item> {
    if items == [] then []
    else
      var init, last := GroundedIn(items[..|items| - 1], text), items[|items| - 1];
      if Grounded(last.Cites(), text) then init + [last] else init
  }

  function UngroundedIn(items: seq<Item>, text: string): seq<Citation> {
    if items == [] then []
    else
      var init, last := UngroundedIn(items[..|items| - 1], text), items[|items| - 1];
      if Grounded(last.Cites(), text) then init else init + [last.Cites()]
  }

  /** The grounded part of an extraction. */
  function Kept(e: ObligationExtraction, text: string): ObligationExtraction {
    var grounded := GroundedIn(ItemsOf(e), text);
    ObligationExtraction(ObligationsIn(grounded), TermsIn(grounded))
  }

  method SplitCited(e: ObligationExtraction, text: string) returns (kept: ObligationExtraction, rejected: seq<Citation>)
    ensures kept == Kept(e, text)
    ensures rejected == UngroundedIn(ItemsOf(e), text)
  {
    var items := ItemsOf(e);
    var grounded: seq<Item> := [];
    rejected := [];
    for i := 0 to |items|
      invariant grounded == GroundedIn(items[..i], text)
      invariant rejected == UngroundedIn(items[..i], text)
    {
      assert items[..i + 1][..i] == items[..i];
      if Grounded(items[i].Cites(), text) {
        grounded := grounded + [items[i]];
      } else {
        rejected := rejected + [items[i].Cites()];
      }
    }
    assert items[..|items|] == items;
    kept := ObligationExtraction(ObligationsIn(grounded), TermsIn(grounded));
  }

  // ----- What the gate lets through -----

  lemma {:induction false} KindsOf(items: seq<Item>)
    ensures forall o :: o in ObligationsIn(items) <==> AnObligation(o) in items
    ensures forall t :: t in TermsIn(items) <==> ATerm(t) in items
  {
    if items != [] {
      KindsOf(items[..|items| - 1]);
      assert items == items[..|items| - 1] + [items[|items| - 1]];
    }
  }

  lemma {:induction false} GroundedMembers(items: seq<Item>, text: string)
    ensures forall x :: x in GroundedIn(items, text) <==> x in items && Grounded(x.Cites(), text)
    ensures UngroundedIn(items, text) == [] <==> forall x <- items :: Grounded(x.Cites(), text)
  {
    if items != [] {
      GroundedMembers(items[..|items| - 1], text);
      assert items == items[..|items| - 1] + [items[|items| - 1]];
    }
  }

  lemma {:induction false} ItemMembers(e: ObligationExtraction)
    ensures forall o :: o in e.obligations <==> AnObligation(o) in ItemsOf(e)
    ensures forall t :: t in e.definedTerms <==> ATerm(t) in ItemsOf(e)
  {
    var n := |e.obligations|;
    forall o | o in e.obligations ensures AnObligation(o) in ItemsOf(e) {
      var i :| 0 <= i < n && e.obligations[i] == o;
      assert ItemsOf(e)[i] == AnObligation(o);
    }
    forall t | t in e.definedTerms ensures ATerm(t) in ItemsOf(e) {
      var i :| 0 <= i < |e.definedTerms| && e.definedTerms[i] == t;
      assert ItemsOf(e)[n + i] == ATerm(t);
    }
  }

  /** Exactly the grounded items are kept, and nothing is rejected if and only if every item is grounded. */
  lemma {:induction false} KeptIsExact(e: ObligationExtraction, text: string)
    ensures AllGrounded(Kept(e, text), text)
    ensures forall o :: o in Kept(e, text).obligations <==> o in e.obligations && Grounded(o.citation, text)
    ensures forall t :: t in Kept(e, text).definedTerms <==> t in e.definedTerms && Grounded(t.citation, text)
    ensures UngroundedIn(ItemsOf(e), text) == [] <==> AllGrounded(e, text)
  {
    ItemMembers(e);
    GroundedMembers(ItemsOf(e), text);
    KindsOf(GroundedIn(ItemsOf(e), text));
    if AllGrounded(e, text) {
      forall x | x in ItemsOf(e) ensures Grounded(x.Cites(), text) {
        match x
        case AnObligation(o) => assert o in e.obligations;
        case ATerm(t) => assert t in e.definedTerms;
      }
    }
    forall o | o in Kept(e, text).obligations ensures Grounded(o.citation, text) {
      assert AnObligation(o) in GroundedIn(ItemsOf(e), text);
      assert AnObligation(o).Cites() == o.citation;
    }
    forall t | t in Kept(e, text).definedTerms ensures Grounded(t.citation, text) {
      assert ATerm(t) in GroundedIn(ItemsOf(e), text);
      assert ATerm(t).Cites() == t.citation;
    }
    forall o | o in e.obligations && Grounded(o.citation, text) ensures o in Kept(e, text).obligations {
      assert Grounded(AnObligation(o).Cites(), text);
    }
    forall t | t in e.definedTerms && Grounded(t.citation, text) ensures t in Kept(e, text).definedTerms {
      assert Grounded(ATerm(t).Cites(), text);
    }
  }

  ghost predicate NothingGrounded(e: ObligationExtraction, text: string) {
    && (forall o <- e.obligations :: !Grounded(o.citation, text))
    && (forall t <- e.definedTerms :: !Grounded(t.citation, text))
  }

  /**
   * The bounded retry: `replies` are the model's answers to the attempts in order.
   * A first reply that is grounded throughout is returned untouched. A second
   * reply is cut down to its grounded part and fails only when that is empty.
   */
  ghost function Extracted(replies: seq<Reply>, text: string): Result<ObligationExtraction, string>
    requires |replies| == CITATION_ATTEMPTS
  {
    if replies[0].LlmFailure? then Err(replies[0].error)
    else if AllGrounded(replies[0].data, text) then Ok(replies[0].data)
    else
      match replies[1]
      case LlmFailure(error) => Err(error)
      case Parsed(data) =>
        if AllGrounded(data, text) then Ok(data)
        else if NothingGrounded(data, text) then Err("model output failed citation validation")
        else Ok(Kept(data, text))
  }

  /** Whatever the model replies, nothing but grounded items ever gets out. */
  lemma {:induction false} ExtractedIsGrounded(replies: seq<Reply>, text: string)
    requires |replies| == CITATION_ATTEMPTS
    ensures var r := Extracted(replies, text); r.Ok? ==> AllGrounded(r.value, text)
  {
    if replies[1].Parsed? {
      KeptIsExact(replies[1].data, text);
    }
  }

  method ExtractObligations(replies: seq<Reply>, text: string) returns (r: Result<ObligationExtraction, string>)
    requires |replies| == CITATION_ATTEMPTS
    ensures r == Extracted(replies, text)
  {
    for attempt := 1 to CITATION_ATTEMPTS + 1
      invariant attempt == 2 ==> replies[0].Parsed? && !AllGrounded(replies[0].data, text)
      invariant attempt <= CITATION_ATTEMPTS
    {
      var reply := replies[attempt - 1];
      if reply.LlmFailure? {
        return Err(reply.error);
      }
      var grounded, rejected := SplitCited(reply.data, text);
      KeptIsExact(reply.data, text);
      if rejected == [] {
        return Ok(reply.data);
      }
      if attempt < CITATION_ATTEMPTS {
        continue;
      }
      if grounded.obligations == [] && grounded.definedTerms == [] {
        return Err("model output failed citation validation");
      }
      assert grounded.obligations != [] ==> grounded.obligations[0] in grounded.obligations;
      assert grounded.definedTerms != [] ==> grounded.definedTerms[0] in grounded.definedTerms;
      return Ok(grounded);
    }
  }

  // ----- When an extraction succeeds, and what it then holds -----

  function GroundedObligations(obligations: seq<Obligation>, text: string): seq<Obligation> {
    if obligations == [] then []
    else
      var rest := GroundedObligations(obligations[1..], text);
      if Grounded(obligations[0].citation, text) then [obligations[0]] + rest else rest
  }

  function GroundedTerms(terms: seq<DefinedTerm>, text: string): seq<DefinedTerm> {
    if terms == [] then []
    else
      var rest := GroundedTerms(terms[1..], text);
      if Grounded(terms[0].citation, text) then [terms[0]] + rest else rest
  }

  lemma {:induction false} GroundedInSplits(a: seq<Item>, b: seq<Item>, text: string)
    ensures GroundedIn(a + b, text) == GroundedIn(a, text) + GroundedIn(b, text)
  {
    if b == [] {
      assert a + b == a;
    } else {
      var n := |b| - 1;
      GroundedInSplits(a, b[..n], text);
      assert (a + b)[..|a + b| - 1] == a + b[..n];
    }
  }

  lemma {:induction false} KindsSplit(a: seq<Item>, b: seq<Item>)
    ensures ObligationsIn(a + b) == ObligationsIn(a) + ObligationsIn(b)
    ensures TermsIn(a + b) == TermsIn(a) + TermsIn(b)
  {
    if b == [] {
      assert a + b == a;
    } else {
      var n := |b| - 1;
      KindsSplit(a, b[..n]);
      assert (a + b)[..|a + b| - 1] == a + b[..n];
    }
  }

  function ObligationItems(obligations: seq<Obligation>): seq<Item> {
    seq(|obligations|, i requires 0 <= i < |obligations| => AnObligation(obligations[i]))
  }

  function TermItems(terms: seq<DefinedTerm>): seq<Item> {
    seq(|terms|, i requires 0 <= i < |terms| => ATerm(terms[i]))
  }

  lemma {:induction false} ItemAlone(x: Item, text: string)
    ensures GroundedIn([x], text) == if Grounded(x.Cites(), text) then [x] else []
    ensures ObligationsIn([x]) == if x.AnObligation? then [x.obligation] else []
    ensures TermsIn([x]) == if x.ATerm? then [x.term] else []
  {
    assert [x][..0] == [];
    assert GroundedIn([], text) == [] && ObligationsIn([]) == [] && TermsIn([]) == [];
  }

  lemma {:induction false} ObligationsAreFiltered(obligations: seq<Obligation>, text: string)
    ensures var kept := GroundedIn(ObligationItems(obligations), text);
            ObligationsIn(kept) == GroundedObligations(obligations, text) && TermsIn(kept) == []
  {
    if obligations != [] {
      var x, rest := AnObligation(obligations[0]), ObligationItems(obligations[1..]);
      assert ObligationItems(obligations) == [x] + rest;
      ObligationsAreFiltered(obligations[1..], text);
      ItemAlone(x, text);
      GroundedInSplits([x], rest, text);
      KindsSplit(GroundedIn([x], text), GroundedIn(rest, text));
    }
  }

  lemma {:induction false} TermsAreFiltered(terms: seq<DefinedTerm>, text: string)
    ensures var kept := GroundedIn(TermItems(terms), text);
            TermsIn(kept) == GroundedTerms(terms, text) && ObligationsIn(kept) == []
  {
    if terms != [] {
      var x, rest := ATerm(terms[0]), TermItems(terms[1..]);
      assert TermItems(terms) == [x] + rest;
      TermsAreFiltered(terms[1..], text);
      ItemAlone(x, text);
      GroundedInSplits([x], rest, text);
      KindsSplit(GroundedIn([x], text), GroundedIn(rest, text));
    }
  }

  /** What is kept of a reply: its grounded obligations and its grounded terms, each in their order. */
  lemma {:induction false} KeptIsFiltered(e: ObligationExtraction, text: string)
    ensures Kept(e, text) ==
            ObligationExtraction(GroundedObligations(e.obligations, text), GroundedTerms(e.definedTerms, text))
  {
    var a, b := ObligationItems(e.obligations), TermItems(e.definedTerms);
    assert ItemsOf(e) == a + b;
    GroundedInSplits(a, b, text);
    KindsSplit(GroundedIn(a, text), GroundedIn(b, text));
    ObligationsAreFiltered(e.obligations, text);
    TermsAreFiltered(e.definedTerms, text);
  }

  lemma {:induction false} AllGroundedIsKept(e: ObligationExtraction, text: string)
    requires AllGrounded(e, text)
    ensures GroundedObligations(e.obligations, text) == e.obligations
    ensures GroundedTerms(e.definedTerms, text) == e.definedTerms
    decreases |e.obligations|, |e.definedTerms|
  {
    if e.obligations != [] {
      assert e.obligations == [e.obligations[0]] + e.obligations[1..];
      AllGroundedIsKept(e.(obligations := e.obligations[1..]), text);
    } else if e.definedTerms != [] {
      assert e.definedTerms == [e.definedTerms[0]] + e.definedTerms[1..];
      AllGroundedIsKept(e.(definedTerms := e.definedTerms[1..]), text);
    }
  }

  /** The reply that counts: the first one if every item of it is grounded, else the second. */
  ghost function Counting(replies: seq<Reply>, text: string): Reply
    requires |replies| == CITATION_ATTEMPTS
  {
    if replies[0].LlmFailure? || AllGrounded(replies[0].data, text) then replies[0] else replies[1]
  }

  /**
   * An extraction succeeds exactly when the reply that counts is one and not all of its items are ungrounded, or it has
   * none; it then holds exactly the grounded items of that reply, in order. A failed call passes its error on.
   */
  lemma {:induction false} ExtractedExactly(replies: seq<Reply>, text: string)
    requires |replies| == CITATION_ATTEMPTS
    ensures var r, reply := Extracted(replies, text), Counting(replies, text);
            && (reply.LlmFailure? ==> r == Err(reply.error))
            && (reply.Parsed? ==>
                  && (r.Ok? <==> AllGrounded(reply.data, text) || !NothingGrounded(reply.data, text))
                  && (r.Ok? ==>
                        && r.value.obligations == GroundedObligations(reply.data.obligations, text)
                        && r.value.definedTerms == GroundedTerms(reply.data.definedTerms, text)))
  {
    var reply := Counting(replies, text);
    if reply.Parsed? {
      KeptIsFiltered(reply.data, text);
      if AllGrounded(reply.data, text) {
        AllGroundedIsKept(reply.data, text);
      }
    }
  }
}
