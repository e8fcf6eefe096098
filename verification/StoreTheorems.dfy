/** What the store's invariant means for its users. */
module StoreTheorems {
  import opened Wrappers
  import opened Parsing
  import opened Chunking
  import opened ClauseChunks
  import opened Embedding
  import opened Jobs
  import opened Extraction
  import opened Report
  import opened Store
  import opened StoreLaws
  import opened StoreSteps

  // ----- Parsed documents -----

  ghost predicate HasOrdinal(rows: set<ChunkRow>, i: nat) {
    exists c <- rows :: c.ordinal == i
  }

  ghost predicate RowCovers(rows: set<ChunkRow>, i: nat) {
    exists c <- rows :: Holds(c.chunk, i)
  }

  /** Ordinals 0 to n - 1, each once. */
  ghost predicate DenselyNumbered(rows: set<ChunkRow>, n: nat) {
    && (forall c <- rows :: c.ordinal < n)
    && (forall b <- rows, c <- rows :: b.ordinal == c.ordinal ==> b == c)
    && (forall i: nat :: i < n ==> HasOrdinal(rows, i))
  }

  /** Every row is an exact slice of the text, and the rows miss nothing but heading separators. */
  ghost predicate DescribesText(doc: ParsedDocument, rows: set<ChunkRow>) {
    && (forall c <- rows :: Faithful(doc.text, c.chunk))
    && (forall i: nat :: RowCovers(rows, i) <==> i < |doc.text| && !HeadingGap(doc, i))
  }

  lemma {:induction false} RowsAreDense(document: nat, chunks: seq<Chunk>)
    ensures DenselyNumbered(RowsOf(document, chunks), |chunks|)
  {
    forall i: nat | i < |chunks| ensures HasOrdinal(RowsOf(document, chunks), i) {
      assert ChunkRow(document, i, chunks[i]) in RowsOf(document, chunks);
    }
  }

  lemma {:induction false} RowsCoverLikeChunks(document: nat, chunks: seq<Chunk>, i: nat)
    ensures RowCovers(RowsOf(document, chunks), i) <==> Covered(chunks, i)
  {
    var rows := RowsOf(document, chunks);
    if Covered(chunks, i) {
      var k :| 0 <= k < |chunks| && Holds(chunks[k], i);
      assert ChunkRow(document, k, chunks[k]) in rows;
    }
    if c :| c in rows && Holds(c.chunk, i) {
      assert chunks[c.ordinal] in chunks;
    }
  }

  lemma {:induction false} RowsDescribe(document: nat, entries: seq<Entry>)
    ensures DescribesText(Built(entries), RowsOf(document, ChunkList(entries)))
  {
    var doc, chunks := Built(entries), ChunkList(entries);
    var rows := RowsOf(document, chunks);
    ChunksCoverDocument(entries, 0);
    forall c <- rows ensures Faithful(doc.text, c.chunk) {
      assert chunks[c.ordinal] in chunks;
    }
    forall i: nat ensures RowCovers(rows, i) <==> i < |doc.text| && !HeadingGap(doc, i) {
      ChunksCoverDocument(entries, i);
      RowsCoverLikeChunks(document, chunks, i);
    }
  }

  /** A parsed document has exactly the text its bytes parse to, and chunk rows that describe that text. */
  lemma {:induction false} ParsedIsExact(p: Parser, s: Store, id: nat) returns (entries: seq<Entry>)
    requires Coherent(p, s) && id in s.docs && s.docs[id].status == DocParsed
    ensures p(s.docs[id].mime, s.docs[id].content) == Ok(entries)
    ensures id in s.texts && s.texts[id].text == Built(entries).text && s.texts[id].pageMap == Built(entries).pageMap
    ensures DenselyNumbered(ChunksFor(s.chunks, id), |ChunkList(entries)|)
    ensures DescribesText(Built(entries), ChunksFor(s.chunks, id))
    ensures forall c <- ChunksFor(s.chunks, id) ::
              c.ordinal < |ChunkList(entries)| && c.chunk == ChunkList(entries)[c.ordinal]
  {
    assert DocOk(s, id) && TextOk(p, s, id);
    entries := p(s.docs[id].mime, s.docs[id].content).value;
    RowsAreDense(id, ChunkList(entries));
    RowsDescribe(id, entries);
  }

  // ----- Jobs never miss their inputs -----

  /** A queued extraction always finds its document and parsed text: what fails is only ever the model's reply. */
  lemma {:induction false} ExtractionFindsText(p: Parser, s: Store, j: nat, replies: seq<Reply>)
    requires Coherent(p, s) && j in s.extractions && |replies| == CITATION_ATTEMPTS
    ensures var subject := s.extractions[j].subject;
            && subject.document in s.texts
            && ExtractionOutcome(s, subject, replies) == Extracted(replies, s.texts[subject.document].text)
  {
    assert RowsOk(s, j);
  }

  /** Likewise a queued report always finds both of its texts, whichever obligations it works with. */
  lemma {:induction false} ReportFindsTexts(
      p: Parser, s: Store, j: nat, obligations: seq<Obligation>, explained: ExplainReply, o: Oracle)
    requires Coherent(p, s) && j in s.reports
    ensures var subject := s.reports[j].subject;
            && subject.base in s.texts && subject.amended in s.texts
            && ReportOutcome(s, subject, obligations, explained, o)
               == ReportOf(s.texts[subject.base].text, s.texts[subject.amended].text, obligations, explained, o)
  {
    assert RowsOk(s, j);
  }

  ghost predicate LatestExtractionCompleted(s: Store, document: nat) {
    exists j <- JobsOf(s.extractions, document) ::
      && s.extractions[j].status == Completed
      && forall other <- JobsOf(s.extractions, document) :: other != j ==> Newer(s.extractions, j, other)
  }

  lemma {:induction false} GapIsMissing(s: Store, document: nat)
    requires document in s.docs
    ensures Gap(s, document).None? <==> s.docs[document].status == DocParsed && LatestExtractionCompleted(s, document)
  {
    var ids := JobsOf(s.extractions, document);
    LatestIsNewest(s.extractions, ids);
    if j :| j in ids && s.extractions[j].status == Completed
            && forall other <- ids :: other != j ==> Newer(s.extractions, j, other) {
      assert IsLatest(s.extractions, ids, j);
    }
    var latest := Latest(s.extractions, ids);
    assert latest.Some? ==> IsLatest(s.extractions, ids, latest.value);
  }

  /** A report is queued exactly when one document amends the other and both are parsed and freshly extracted. */
  lemma {:induction false} ReportGateIsExact(s: Store, tenant: nat, base: nat, amended: nat)
    ensures ReportRefusal(s, tenant, base, amended).None? <==>
            && Owns(s.docs, tenant, base) && Owns(s.docs, tenant, amended)
            && s.docs[amended].amends == Some(base)
            && s.docs[base].status == DocParsed && LatestExtractionCompleted(s, base)
            && s.docs[amended].status == DocParsed && LatestExtractionCompleted(s, amended)
  {
    if base in s.docs && amended in s.docs {
      GapIsMissing(s, base);
      GapIsMissing(s, amended);
    }
  }

  /** Some job of this kind is missing for the document. */
  predicate Misses(refusal: Option<EnqueueError>, document: nat, kind: Prerequisite) {
    refusal.Some? && refusal.value.PrerequisiteMissing?
    && refusal.value.prerequisiteOf == document && refusal.value.kind == kind
  }

  /** A refused report names the first thing that is wrong, base before amendment and ingestion before extraction. */
  lemma {:induction false} ReportRefusalIsFirst(s: Store, tenant: nat, base: nat, amended: nat)
    ensures var refusal := ReportRefusal(s, tenant, base, amended);
            if !Owns(s.docs, tenant, base) then refusal == Some(DocumentNotFound(base))
            else if !Owns(s.docs, tenant, amended) then refusal == Some(DocumentNotFound(amended))
            else if s.docs[amended].amends != Some(base) then refusal == Some(AmendmentMismatch(base, amended))
            else if s.docs[base].status != DocParsed then Misses(refusal, base, NeedsIngestion)
            else if !LatestExtractionCompleted(s, base) then Misses(refusal, base, NeedsExtraction)
            else if s.docs[amended].status != DocParsed then Misses(refusal, amended, NeedsIngestion)
            else if !LatestExtractionCompleted(s, amended) then Misses(refusal, amended, NeedsExtraction)
            else refusal.None?
  {
    if Owns(s.docs, tenant, base) && Owns(s.docs, tenant, amended) {
      GapIsMissing(s, base);
      GapIsMissing(s, amended);
    }
  }

  // ----- Canonical text never moves -----

  predicate Spares(steps: seq<Step>, id: nat) {
    forall k :: 0 <= k < |steps| && steps[k].Deleting? ==> steps[k].id != id
  }

  /** The document keeps its bytes, and its text row if it has one. */
  ghost predicate KeepsDocument(s: Store, t: Store, id: nat) {
    id in s.docs ==>
      && id in t.docs && t.docs[id].mime == s.docs[id].mime && t.docs[id].content == s.docs[id].content
      && (id in s.texts ==> id in t.texts)
  }

  lemma {:induction false} IngestionKeepsDocument(
      s: Store, j: nat, outcome: Result<(seq<Entry>, seq<Vector>), string>, id: nat)
    requires j in s.ingestions
    ensures KeepsDocument(s, SettleIngestion(s, j, outcome), id)
    ensures SettleIngestion(s, j, outcome).reviews == s.reviews
  {
  }

  lemma {:induction false} SettlingKeepsDocuments(
      s: Store, j: nat, extracted: Result<ObligationExtraction, string>, reported: Result<seq<ReportEntry>, string>,
      threshold: real, firstId: nat)
    ensures j in s.extractions ==>
              var t := SettleExtraction(s, j, extracted, threshold, firstId); t.docs == s.docs && t.texts == s.texts
    ensures j in s.reports ==>
              var t := SettleReport(s, j, reported, threshold, firstId); t.docs == s.docs && t.texts == s.texts
  {
  }

  lemma {:induction false} ClaimsKeepDocument(s: Store, now: nat, id: nat)
    ensures KeepsDocument(s, ClaimIngestion(s, now), id) && ClaimIngestion(s, now).reviews == s.reviews
  {
  }

  lemma {:induction false} DeletingKeepsDocument(s: Store, tenant: nat, deleted: nat, id: nat, r: nat)
    ensures deleted != id ==> KeepsDocument(s, DeleteDocument(s, tenant, deleted), id)
    ensures var t := DeleteDocument(s, tenant, deleted);
            r in t.reviews ==> r in s.reviews && t.reviews[r] == s.reviews[r]
  {
  }

  predicate IsFinish(e: Step) {
    e.IngestionFinish? || e.ExtractionFinish? || e.ReportFinish?
  }

  lemma {:induction false} FinishIngestionKeepsDocument(p: Parser, s: Store, j: nat, ask: Endpoint<Vector>, id: nat)
    requires j in s.ingestions
    ensures KeepsDocument(s, FinishIngestion(p, s, j, ask), id)
    ensures FinishIngestion(p, s, j, ask).reviews == s.reviews
  {
    var subject := s.ingestions[j].subject;
    if Owns(s.docs, subject.tenant, subject.document) {
      IngestionKeepsDocument(s, j, IngestionOutcome(p, s, subject.document, ask), id);
    }
  }

  lemma {:induction false} FinishKeepsDocument(p: Parser, s: Store, e: Step, id: nat)
    requires Possible(s, e) && IsFinish(e)
    ensures KeepsDocument(s, Do(p, s, e), id)
  {
    match e
    case IngestionFinish(job, ask) =>
      FinishIngestionKeepsDocument(p, s, job, ask, id);
    case ExtractionFinish(job, replies, threshold, firstId) =>
      var outcome := ExtractionOutcome(s, s.extractions[job].subject, replies);
      SettlingKeepsDocuments(s, job, outcome, Err(""), threshold, firstId);
    case ReportFinish(job, obligations, explained, o, threshold, firstId) =>
      var outcome := ReportOutcome(s, s.reports[job].subject, obligations, explained, o);
      SettlingKeepsDocuments(s, job, Err(""), outcome, threshold, firstId);
  }

  lemma {:induction false} UploadKeepsDocument(s: Store, u: Upload, maxBytes: nat, newId: nat, id: nat)
    requires newId !in s.docs
    ensures KeepsDocument(s, UploadDocument(s, u, maxBytes, newId), id)
  {
  }

  lemma {:induction false} OtherStepKeepsDocument(p: Parser, s: Store, e: Step, id: nat)
    requires Possible(s, e) && !IsFinish(e) && !e.Deleting? && !e.IngestionClaim?
    ensures KeepsDocument(s, Do(p, s, e), id)
  {
    if e.Uploading? {
      UploadKeepsDocument(s, e.upload, e.maxBytes, e.id, id);
    }
  }

  lemma {:induction false} StepKeepsDocument(p: Parser, s: Store, e: Step, id: nat)
    requires Possible(s, e) && (e.Deleting? ==> e.id != id)
    ensures KeepsDocument(s, Do(p, s, e), id)
  {
    if IsFinish(e) {
      FinishKeepsDocument(p, s, e, id);
    } else if e.Deleting? {
      DeletingKeepsDocument(s, e.tenant, e.id, id, 0);
    } else if e.IngestionClaim? {
      ClaimsKeepDocument(s, e.now, id);
    } else {
      OtherStepKeepsDocument(p, s, e, id);
    }
  }

  lemma {:induction false} StepKeepsText(p: Parser, s: Store, e: Step, id: nat)
    requires Coherent(p, s) && Possible(s, e) && id in s.texts && (e.Deleting? ==> e.id != id)
    ensures id in Do(p, s, e).texts && Do(p, s, e).texts[id] == s.texts[id]
    ensures ChunksFor(Do(p, s, e).chunks, id) == ChunksFor(s.chunks, id)
  {
    assert TextOk(p, s, id);
    StepKeepsDocument(p, s, e, id);
    DoKeeps(p, s, e);
    assert KeepsDocument(s, Do(p, s, e), id);
    SameTextWherever(p, s, Do(p, s, e), id);
  }

  /** Text and chunks are determined by the bytes alone. */
  lemma {:induction false} SameTextWherever(p: Parser, s: Store, t: Store, id: nat)
    requires Coherent(p, s) && Coherent(p, t) && id in s.texts && id in t.texts && id in s.docs && id in t.docs
    requires s.docs[id].mime == t.docs[id].mime && s.docs[id].content == t.docs[id].content
    ensures s.texts[id] == t.texts[id] && ChunksFor(s.chunks, id) == ChunksFor(t.chunks, id)
  {
    assert TextOk(p, s, id) && TextOk(p, t, id);
  }

  /** As long as a document is not deleted, its text and chunks stay what they are: stored spans never go stale. */
  lemma {:induction false} TextIsStable(p: Parser, s: Store, steps: seq<Step>, id: nat)
    requires Coherent(p, s) && IsHistory(p, s, steps) && id in s.texts && Spares(steps, id)
    ensures id in StoreAfter(p, s, steps).texts && StoreAfter(p, s, steps).texts[id] == s.texts[id]
    ensures ChunksFor(StoreAfter(p, s, steps).chunks, id) == ChunksFor(s.chunks, id)
    decreases |steps|
  {
    if steps != [] {
      StepKeepsText(p, s, steps[0], id);
      DoKeeps(p, s, steps[0]);
      TextIsStable(p, Do(p, s, steps[0]), steps[1..], id);
    }
  }

  /** What a report handler reads some time during its run is readable when it finishes, whatever happens between. */
  lemma {:induction false} ObligationsStayReadable(p: Parser, s: Store, steps: seq<Step>, base: nat)
    requires Coherent(p, s) && IsHistory(p, s, steps) && base in s.texts && Spares(steps, base)
    ensures Readable(StoreAfter(p, s, steps), base, BaseObligations(s.extractions, base))
  {
    BaseObligationsAreReadable(p, s, base);
    TextIsStable(p, s, steps, base);
  }

  /**
   * After any run a stored report lists exactly the changes between the stored texts, each with the explanation of its
   * own index, its excerpts still quote those texts, and each impact names an obligation that cites the base text.
   */
  lemma {:induction false} StoredReportsHold(p: Parser, steps: seq<Step>, j: nat)
    requires IsHistory(p, Empty(), steps)
    ensures var s := StoreAfter(p, Empty(), steps);
            j in s.reports && s.reports[j].result.Some? ==>
              var subject, report := s.reports[j].subject, s.reports[j].result.value;
              && subject.base in s.texts && subject.amended in s.texts
              && ReportsDiff(report, s.texts[subject.base].text, s.texts[subject.amended].text)
              && ImpactsGrounded(report, s.texts[subject.base].text)
              && ExcerptsQuote(report, s.texts[subject.base].text, s.texts[subject.amended].text)
              && ExplainedInOrder(report)
  {
    EmptyIsCoherent(p);
    RunsAreCoherent(p, Empty(), steps);
    assert RowsOk(StoreAfter(p, Empty(), steps), j);
  }

  // ----- Deletion -----

  /** A document can be deleted exactly when it is the tenant's own and nothing amends it. */
  lemma {:induction false} DeletableExactlyWhenUnamended(p: Parser, s: Store, tenant: nat, id: nat)
    requires Coherent(p, s)
    ensures DeleteRefusal(s, tenant, id).None? <==> Owns(s.docs, tenant, id) && !Amended(s.docs, id)
  {
    DeletableIsUnreferenced(p, s, tenant, id);
  }

  lemma {:induction false} HighestIn(docs: map<nat, Document>, rank: map<nat, nat>, ids: set<nat>) returns (top: nat)
    requires ids != {} && ids <= docs.Keys && Ranks(docs, rank)
    ensures top in ids && forall id <- ids :: rank[id] <= rank[top]
    decreases |ids|
  {
    var id :| id in ids;
    var rest := ids - {id};
    top := id;
    if rest != {} {
      var best := HighestIn(docs, rank, rest);
      if rank[id] < rank[best] {
        top := best;
      }
    }
    forall other <- ids ensures rank[other] <= rank[top] {
      assert other == id || other in rest;
    }
  }

  /** A store that holds documents always holds one that can be deleted. */
  lemma {:induction false} SomeDocumentIsDeletable(p: Parser, s: Store) returns (id: nat)
    requires Coherent(p, s) && s.docs != map[]
    ensures id in s.docs && DeleteRefusal(s, s.docs[id].tenant, id).None?
  {
    var rank: map<nat, nat> :| Ranks(s.docs, rank);
    id := HighestIn(s.docs, rank, s.docs.Keys);
    DeletableExactlyWhenUnamended(p, s, s.docs[id].tenant, id);
  }

  /** The job a review item came from is still there, in the table its source says, and concerns its document. */
  predicate NamesItsJob(s: Store, item: ReviewItem) {
    match item.source
    case FromExtraction =>
      item.job in s.extractions && s.extractions[item.job].subject == DocumentJob(item.tenant, item.document)
    case FromReport =>
      && item.job in s.reports
      && s.reports[item.job].subject.tenant == item.tenant && s.reports[item.job].subject.base == item.document
  }

  /** Every reference to a document or job in every table points at one that exists. */
  lemma {:induction false} ReferencesAreSound(p: Parser, s: Store)
    requires Coherent(p, s)
    ensures s.texts.Keys <= s.docs.Keys && s.vectors.Keys <= s.docs.Keys
    ensures forall c <- s.chunks :: c.document in s.docs
    ensures forall d <- s.docs :: s.docs[d].amends.Some? ==> s.docs[d].amends.value in s.docs
    ensures forall j <- s.ingestions :: s.ingestions[j].subject.document in s.docs
    ensures forall j <- s.extractions :: s.extractions[j].subject.document in s.docs
    ensures forall j <- s.reports :: s.reports[j].subject.base in s.docs && s.reports[j].subject.amended in s.docs
    ensures forall r <- s.reviews :: s.reviews[r].document in s.docs && NamesItsJob(s, s.reviews[r])
  {
    forall id: nat | id in s.texts || id in s.vectors ensures id in s.docs {
      assert TextOk(p, s, id);
    }
    forall c <- s.chunks ensures c.document in s.docs {
      assert TextOk(p, s, c.document);
      assert c in ChunksFor(s.chunks, c.document);
    }
    forall d <- s.docs ensures s.docs[d].amends.Some? ==> s.docs[d].amends.value in s.docs {
      assert DocOk(s, d);
    }
    forall j <- s.ingestions ensures s.ingestions[j].subject.document in s.docs {
      assert RowsOk(s, j);
    }
    forall j <- s.extractions ensures s.extractions[j].subject.document in s.docs {
      assert RowsOk(s, j);
    }
    forall j <- s.reports ensures s.reports[j].subject.base in s.docs && s.reports[j].subject.amended in s.docs {
      assert RowsOk(s, j);
    }
    forall r <- s.reviews ensures s.reviews[r].document in s.docs && NamesItsJob(s, s.reviews[r]) {
      assert RowsOk(s, r);
    }
  }

  /** Without documents every other table is empty too. */
  lemma {:induction false} NothingWithoutDocuments(p: Parser, s: Store)
    requires Coherent(p, s) && s.docs == map[]
    ensures s == Empty()
  {
    ReferencesAreSound(p, s);
    forall f <- s.files ensures exists id: nat :: IsTwin(s.docs, f.0, f.1, id) {
      assert FileOk(s, f.0, f.1);
    }
  }

  /** Deleting leaf first always empties the store, one deletion per document. */
  lemma {:induction false} CanBeEmptied(p: Parser, s: Store) returns (steps: seq<Step>)
    requires Coherent(p, s)
    ensures |steps| == |s.docs| && (forall e <- steps :: e.Deleting?)
    ensures IsHistory(p, s, steps) && StoreAfter(p, s, steps) == Empty()
    decreases |s.docs|
  {
    if s.docs == map[] {
      NothingWithoutDocuments(p, s);
      steps := [];
    } else {
      var id := SomeDocumentIsDeletable(p, s);
      var e := Deleting(s.docs[id].tenant, id);
      var t := Do(p, s, e);
      DoKeeps(p, s, e);
      assert t.docs.Keys == s.docs.Keys - {id};
      assert |t.docs| == |t.docs.Keys| && |s.docs| == |s.docs.Keys|;
      var rest := CanBeEmptied(p, t);
      steps := [e] + rest;
      assert steps[1..] == rest;
    }
  }

  /** Deleting what was just uploaded restores the store exactly. */
  lemma {:induction false} DeleteUndoesUpload(p: Parser, s: Store, u: Upload, maxBytes: nat, id: nat)
    requires Coherent(p, s) && id !in s.docs && UploadRefusal(s, u, maxBytes).None?
    ensures DeleteDocument(UploadDocument(s, u, maxBytes, id), u.tenant, id) == s
  {
    var t := UploadDocument(s, u, maxBytes, id);
    UploadKeeps(p, s, u, maxBytes, id);
    ReferencesAreSound(p, s);
    forall d <- t.docs ensures t.docs[d].amends != Some(id) {
    }
    DeletableExactlyWhenUnamended(p, t, u.tenant, id);
    NothingToSweep(p, s, t, id);
    assert FileOk(s, u.tenant, u.content);
  }

  lemma {:induction false} NothingToSweep(p: Parser, s: Store, t: Store, id: nat)
    requires Coherent(p, s) && id !in s.docs
    requires t == s.(docs := t.docs, files := t.files)
    ensures Swept(t, id) == t
  {
    ReferencesAreSound(p, s);
    assert ReportsNaming(s.reports, id) == {};
    assert JobsOf(s.extractions, id) == {} && JobsOf(s.ingestions, id) == {};
    assert ReviewsWithout(s.reviews, {}, id) == s.reviews;
    assert ChunksWithout(s.chunks, id) == s.chunks;
    assert s.texts - {id} == s.texts;
    assert TextOk(p, s, id);
    assert s.vectors - {id} == s.vectors;
  }

  /** In any store a refusal names a duplicate exactly when that document holds the same bytes for the same tenant. */
  lemma {:induction false} DuplicateIsNamed(p: Parser, s: Store, u: Upload, maxBytes: nat, id: nat)
    requires Coherent(p, s)
    ensures UploadRefusal(s, u, maxBytes) == Some(AlreadyExists(id)) <==>
            WellOffered(s, u, maxBytes) && IsTwin(s.docs, u.tenant, u.content, id)
  {
    var twin := Twin(s.docs, u.tenant, u.content);
    if twin.Some? {
      assert Unlike(s, twin.value, id);
    }
  }

  // ----- Review -----

  lemma {:induction false} SettlingKeepsReviews(
      s: Store, j: nat, extracted: Result<ObligationExtraction, string>, reported: Result<seq<ReportEntry>, string>,
      threshold: real, firstId: nat, r: nat)
    requires IdsFrom(s.reviews, firstId) && r in s.reviews
    ensures j in s.extractions ==>
              var t := SettleExtraction(s, j, extracted, threshold, firstId);
              r in t.reviews && t.reviews[r] == s.reviews[r]
    ensures j in s.reports ==>
              var t := SettleReport(s, j, reported, threshold, firstId); r in t.reviews && t.reviews[r] == s.reviews[r]
  {
    if j in s.extractions && extracted.Ok? {
      var subject := s.extractions[j].subject;
      var item := PendingItem(subject.tenant, FromExtraction, subject.document, j);
      RoutedIsExact(s.reviews, item, ExtractionCandidates(extracted.value), threshold, firstId, r);
    }
    if j in s.reports && reported.Ok? {
      var subject := s.reports[j].subject;
      var item := PendingItem(subject.tenant, FromReport, subject.base, j);
      RoutedIsExact(s.reviews, item, ImpactCandidates(reported.value), threshold, firstId, r);
    }
  }

  lemma {:induction false} FinishKeepsReviews(p: Parser, s: Store, e: Step, r: nat)
    requires Possible(s, e) && IsFinish(e) && r in s.reviews
    ensures r in Do(p, s, e).reviews && Do(p, s, e).reviews[r] == s.reviews[r]
  {
    match e
    case IngestionFinish(job, ask) =>
      FinishIngestionKeepsDocument(p, s, job, ask, 0);
    case ExtractionFinish(job, replies, threshold, firstId) =>
      var outcome := ExtractionOutcome(s, s.extractions[job].subject, replies);
      SettlingKeepsReviews(s, job, outcome, Err(""), threshold, firstId, r);
    case ReportFinish(job, obligations, explained, o, threshold, firstId) =>
      var outcome := ReportOutcome(s, s.reports[job].subject, obligations, explained, o);
      SettlingKeepsReviews(s, job, Err(""), outcome, threshold, firstId, r);
  }

  /** A resolved item never changes again, whatever happens; it can only disappear with its document or report. */
  lemma {:induction false} ResolvedIsTerminal(p: Parser, s: Store, e: Step, r: nat)
    requires Possible(s, e) && r in s.reviews && s.reviews[r].status != Pending
    ensures r in Do(p, s, e).reviews ==> Do(p, s, e).reviews[r] == s.reviews[r]
    ensures !e.Deleting? ==> r in Do(p, s, e).reviews
  {
    if IsFinish(e) {
      FinishKeepsReviews(p, s, e, r);
    } else if e.Deleting? {
      DeletingKeepsDocument(s, e.tenant, e.id, e.id, r);
    } else if e.IngestionClaim? {
      ClaimsKeepDocument(s, e.now, 0);
    }
  }

  ghost predicate Present(p: Parser, s: Store, steps: seq<Step>, r: nat)
    requires IsHistory(p, s, steps)
    decreases |steps|
  {
    r in s.reviews && (steps == [] || Present(p, Do(p, s, steps[0]), steps[1..], r))
  }

  /** Over a whole run: as long as a resolved item exists it stays exactly as resolved. */
  lemma {:induction false} ResolvedStaysResolved(p: Parser, s: Store, steps: seq<Step>, r: nat)
    requires IsHistory(p, s, steps) && Present(p, s, steps, r) && s.reviews[r].status != Pending
    ensures r in StoreAfter(p, s, steps).reviews && StoreAfter(p, s, steps).reviews[r] == s.reviews[r]
    decreases |steps|
  {
    if steps != [] {
      ResolvedIsTerminal(p, s, steps[0], r);
      ResolvedStaysResolved(p, Do(p, s, steps[0]), steps[1..], r);
    }
  }
}
