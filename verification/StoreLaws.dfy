/** What every run of the store keeps, whatever the order of uploads, deletes, claims and (late) finishes. */
module StoreLaws {
  import opened Wrappers
  import opened Parsing
  import opened ClauseChunks
  import opened Embedding
  import opened Jobs
  import opened Extraction
  import opened Diffing
  import opened Report
  import opened ReportLaws
  import opened Store

  // ----- The invariant, row by row -----

  function ChunksFor(chunks: set<ChunkRow>, document: nat): set<ChunkRow> {
    set c <- chunks | c.document == document
  }

  /** Exactly the bytes of the documents are on disk. */
  ghost predicate FileOk(s: Store, tenant: nat, content: Content) {
    (tenant, content) in s.files <==> exists id: nat :: IsTwin(s.docs, tenant, content, id)
  }

  /** The parent is a document of the same tenant, and a parsed document has its text. */
  ghost predicate DocOk(s: Store, id: nat) {
    id in s.docs ==>
      var d := s.docs[id];
      && (d.amends.Some? ==> Owns(s.docs, d.tenant, d.amends.value))
      && (d.status == DocParsed ==> id in s.texts)
  }

  /** A tenant never has the same bytes twice. */
  ghost predicate Unlike(s: Store, a: nat, b: nat) {
    a in s.docs && b in s.docs && a != b && s.docs[a].tenant == s.docs[b].tenant ==>
      s.docs[a].content != s.docs[b].content
  }

  /** Text and chunks of a document are what its bytes parse to, with one vector per chunk, or all are missing. */
  ghost predicate TextOk(p: Parser, s: Store, id: nat) {
    if id in s.texts then
      && id in s.docs
      && var parsed := p(s.docs[id].mime, s.docs[id].content);
      && parsed.Ok? && s.texts[id] == TextRowOf(parsed.value)
      && ChunksFor(s.chunks, id) == RowsOf(id, ChunkList(parsed.value))
      && id in s.vectors && |s.vectors[id]| == |ChunkList(parsed.value)|
    else ChunksFor(s.chunks, id) == {} && id !in s.vectors
  }

  ghost predicate IngestionOk(s: Store, j: nat) {
    j in s.ingestions ==> Owns(s.docs, s.ingestions[j].subject.tenant, s.ingestions[j].subject.document)
  }

  ghost predicate ExtractionOk(s: Store, j: nat) {
    j in s.extractions ==>
      var job := s.extractions[j];
      && Owns(s.docs, job.subject.tenant, job.subject.document)
      && job.subject.document in s.texts
      && (job.result.Some? ==> AllGrounded(job.result.value, s.texts[job.subject.document].text))
  }

  /** The report lists exactly the detected changes between the two texts. */
  ghost predicate ReportsDiff(report: seq<ReportEntry>, baseText: string, amendedText: string) {
    var changes := Diff(VersionOf(baseText), VersionOf(amendedText));
    |report| == |changes| && forall i :: 0 <= i < |report| ==> report[i].change == changes[i]
  }

  /** Every impact names an obligation that cites the base version's text. */
  ghost predicate ImpactsGrounded(report: seq<ReportEntry>, baseText: string) {
    forall entry <- report :: forall impact <- entry.impacts :: Grounded(impact.0.citation, baseText)
  }

  /** Every excerpt quotes the wording of its change. */
  ghost predicate ExcerptsQuote(report: seq<ReportEntry>, baseText: string, amendedText: string) {
    forall entry <- report ::
      && Quotes(entry.baseExcerpt, baseText, entry.change.baseSpan)
      && Quotes(entry.amendedExcerpt, amendedText, entry.change.amendedSpan)
  }

  /** Every entry carries the explanation of its own change. */
  predicate ExplainedInOrder(report: seq<ReportEntry>) {
    forall i :: 0 <= i < |report| ==> report[i].explanation.index == i
  }

  ghost predicate ReportHolds(report: seq<ReportEntry>, baseText: string, amendedText: string) {
    && ReportsDiff(report, baseText, amendedText)
    && ImpactsGrounded(report, baseText)
    && ExcerptsQuote(report, baseText, amendedText)
    && ExplainedInOrder(report)
  }

  ghost predicate ReportOk(s: Store, j: nat) {
    j in s.reports ==>
      var job := s.reports[j];
      && Owns(s.docs, job.subject.tenant, job.subject.base)
      && Owns(s.docs, job.subject.tenant, job.subject.amended)
      && s.docs[job.subject.amended].amends == Some(job.subject.base)
      && job.subject.base in s.texts && job.subject.amended in s.texts
      && (job.result.Some? ==>
            ReportHolds(job.result.value, s.texts[job.subject.base].text, s.texts[job.subject.amended].text))
  }

  /** The item's document exists, and its unconstrained job id names a job of that document in the right table. */
  ghost predicate ReviewOk(s: Store, r: nat) {
    r in s.reviews ==>
      var item := s.reviews[r];
      && Owns(s.docs, item.tenant, item.document)
      && match item.source
         case FromExtraction =>
           && item.job in s.extractions
           && s.extractions[item.job].subject == DocumentJob(item.tenant, item.document)
         case FromReport =>
           && item.job in s.reports
           && s.reports[item.job].subject.tenant == item.tenant && s.reports[item.job].subject.base == item.document
  }

  /** No job id is drawn for both tables that review items point into. */
  ghost predicate JobIdsApart(s: Store, j: nat) {
    !(j in s.extractions && j in s.reports)
  }

  ghost predicate OneActive<R>(rows: Table<DocumentJob, R>, i: nat, j: nat) {
    i in rows && j in rows && Active(rows[i]) && Active(rows[j]) ==>
      rows[i].subject.document == rows[j].subject.document ==> i == j
  }

  /** The rows with id `j` in the tables of jobs and review items. */
  ghost predicate RowsOk(s: Store, j: nat) {
    IngestionOk(s, j) && ExtractionOk(s, j) && ReportOk(s, j) && ReviewOk(s, j) && JobIdsApart(s, j)
  }

  /** Every document ranks above the one it amends. */
  ghost predicate Ranks(docs: map<nat, Document>, rank: map<nat, nat>) {
    && docs.Keys <= rank.Keys
    && forall id <- docs :: docs[id].amends.Some? && docs[id].amends.value in docs ==>
         rank[docs[id].amends.value] < rank[id]
  }

  ghost predicate Forest(docs: map<nat, Document>) {
    exists rank: map<nat, nat> :: Ranks(docs, rank)
  }

  ghost predicate Coherent(p: Parser, s: Store) {
    && (forall tenant: nat, content: Content :: FileOk(s, tenant, content))
    && (forall id: nat :: DocOk(s, id))
    && (forall a: nat, b: nat :: Unlike(s, a, b))
    && (forall id: nat :: TextOk(p, s, id))
    && (forall j: nat :: RowsOk(s, j))
    && (forall i: nat, j: nat :: OneActive(s.ingestions, i, j))
    && (forall i: nat, j: nat :: OneActive(s.extractions, i, j))
    && Forest(s.docs)
  }

  // ----- Upload -----

  lemma {:induction false} TwinIsFound(docs: map<nat, Document>, tenant: nat, content: Content, id: nat)
    requires IsTwin(docs, tenant, content, id)
    ensures Twin(docs, tenant, content).Some?
  {
  }

  lemma {:induction false} UploadKeeps(p: Parser, s: Store, u: Upload, maxBytes: nat, id: nat)
    requires Coherent(p, s) && id !in s.docs
    ensures Coherent(p, UploadDocument(s, u, maxBytes, id))
  {
    var t := UploadDocument(s, u, maxBytes, id);
    if UploadRefusal(s, u, maxBytes).None? {
      forall a: nat ensures DocOk(t, a) {
        assert DocOk(s, a);
      }
      forall a: nat, b: nat ensures Unlike(t, a, b) {
        assert Unlike(s, a, b);
        if a in s.docs && IsTwin(s.docs, u.tenant, u.content, a) {
          TwinIsFound(s.docs, u.tenant, u.content, a);
        }
        if b in s.docs && IsTwin(s.docs, u.tenant, u.content, b) {
          TwinIsFound(s.docs, u.tenant, u.content, b);
        }
      }
      forall a: nat ensures TextOk(p, t, a) {
        assert TextOk(p, s, a) && TextOk(p, s, id);
      }
      forall j: nat ensures RowsOk(t, j) {
        assert RowsOk(s, j);
      }
      forall tenant: nat, content: Content ensures FileOk(t, tenant, content) {
        UploadKeepsFile(s, u, maxBytes, id, tenant, content);
      }
      UploadKeepsForest(p, s, u, id);
    }
  }

  lemma {:induction false} UploadKeepsFile(s: Store, u: Upload, maxBytes: nat, id: nat, tenant: nat, content: Content)
    requires id !in s.docs && UploadRefusal(s, u, maxBytes).None? && FileOk(s, tenant, content)
    ensures FileOk(UploadDocument(s, u, maxBytes, id), tenant, content)
  {
    var t := UploadDocument(s, u, maxBytes, id);
    assert IsTwin(t.docs, u.tenant, u.content, id);
    if a: nat :| IsTwin(s.docs, tenant, content, a) {
      assert IsTwin(t.docs, tenant, content, a);
    }
    if a: nat :| IsTwin(t.docs, tenant, content, a) {
      assert a != id ==> IsTwin(s.docs, tenant, content, a);
    }
  }

  lemma {:induction false} UploadKeepsForest(p: Parser, s: Store, u: Upload, id: nat)
    requires Coherent(p, s) && id !in s.docs && u.declared.Some?
    requires u.amends.Some? ==> Owns(s.docs, u.tenant, u.amends.value)
    ensures Forest(s.docs[id := Document(u.tenant, u.declared.value, u.content, u.amends, DocUploaded)])
  {
    var rank: map<nat, nat> :| Ranks(s.docs, rank);
    var above := if u.amends.Some? then rank[u.amends.value] + 1 else 0;
    var docs := s.docs[id := Document(u.tenant, u.declared.value, u.content, u.amends, DocUploaded)];
    forall a <- docs | docs[a].amends.Some? && docs[a].amends.value in docs
      ensures rank[id := above][docs[a].amends.value] < rank[id := above][a]
    {
      assert DocOk(s, a);
    }
    assert Ranks(docs, rank[id := above]);
  }

  // ----- Delete -----

  /** A report's base always has an amendment, so once amendments are ruled out the sweep leaves no reference behind. */
  lemma {:induction false} DeletableIsUnreferenced(p: Parser, s: Store, tenant: nat, id: nat)
    requires Coherent(p, s)
    ensures DeleteRefusal(s, tenant, id) != Some(ForeignKeyViolation)
  {
    var swept := Swept(s, id);
    if Owns(s.docs, tenant, id) && !Amended(s.docs, id) {
      forall j <- swept.reports ensures swept.reports[j].subject.base != id && swept.reports[j].subject.amended != id {
        assert RowsOk(s, j);
      }
    }
  }

  lemma {:induction false} DeleteKeepsDocuments(p: Parser, s: Store, tenant: nat, id: nat, a: nat)
    requires Coherent(p, s) && DeleteRefusal(s, tenant, id).None?
    ensures DocOk(DeleteDocument(s, tenant, id), a) && TextOk(p, DeleteDocument(s, tenant, id), a)
  {
    var t := DeleteDocument(s, tenant, id);
    assert DocOk(s, a) && TextOk(p, s, a) && Unlike(s, a, id);
    assert a != id ==> ChunksFor(t.chunks, a) == ChunksFor(s.chunks, a);
    assert ChunksFor(t.chunks, id) == {};
  }

  lemma {:induction false} DeleteKeepsJobs(p: Parser, s: Store, tenant: nat, id: nat, j: nat)
    requires Coherent(p, s) && DeleteRefusal(s, tenant, id).None?
    ensures var t := DeleteDocument(s, tenant, id);
            IngestionOk(t, j) && ExtractionOk(t, j) && ReportOk(t, j) && JobIdsApart(t, j)
  {
    assert RowsOk(s, j);
  }

  lemma {:induction false} DeleteKeepsReviews(p: Parser, s: Store, tenant: nat, id: nat, r: nat)
    requires Coherent(p, s) && DeleteRefusal(s, tenant, id).None?
    ensures ReviewOk(DeleteDocument(s, tenant, id), r)
  {
    assert RowsOk(s, r);
  }

  lemma {:induction false} DeleteKeeps(p: Parser, s: Store, tenant: nat, id: nat)
    requires Coherent(p, s)
    ensures Coherent(p, DeleteDocument(s, tenant, id))
  {
    if DeleteRefusal(s, tenant, id).None? {
      var t := DeleteDocument(s, tenant, id);
      forall a: nat ensures DocOk(t, a) && TextOk(p, t, a) && RowsOk(t, a) {
        DeleteKeepsDocuments(p, s, tenant, id, a);
        DeleteKeepsJobs(p, s, tenant, id, a);
        DeleteKeepsReviews(p, s, tenant, id, a);
      }
      forall a: nat, b: nat ensures Unlike(t, a, b) && OneActive(t.ingestions, a, b) && OneActive(t.extractions, a, b) {
        assert Unlike(s, a, b) && OneActive(s.ingestions, a, b) && OneActive(s.extractions, a, b);
      }
      forall tenant': nat, content: Content ensures FileOk(t, tenant', content) {
        DeleteKeepsFile(p, s, tenant, id, tenant', content);
      }
      var rank: map<nat, nat> :| Ranks(s.docs, rank);
      assert Ranks(t.docs, rank);
    }
  }

  /** The removed file served no other document. */
  lemma {:induction false} DeleteKeepsFile(p: Parser, s: Store, tenant: nat, id: nat, tenant': nat, content: Content)
    requires Coherent(p, s) && DeleteRefusal(s, tenant, id).None?
    ensures FileOk(DeleteDocument(s, tenant, id), tenant', content)
  {
    var t := DeleteDocument(s, tenant, id);
    assert FileOk(s, tenant', content);
    if a: nat :| IsTwin(s.docs, tenant', content, a) {
      assert Unlike(s, a, id);
      assert a != id ==> IsTwin(t.docs, tenant', content, a);
    }
    if a: nat :| IsTwin(t.docs, tenant', content, a) {
      assert Unlike(s, a, id);
      assert IsTwin(s.docs, tenant', content, a);
    }
  }

  // ----- Enqueue -----

  lemma {:induction false} EnqueueKeepsOneActive<R>(
      rows: Table<DocumentJob, R>, job: Job<DocumentJob, R>, id: nat, i: nat, j: nat)
    requires OneActive(rows, i, j) && id !in rows && ActiveOf(rows, job.subject.document) == {}
    ensures OneActive(rows[id := job], i, j)
  {
    assert i !in ActiveOf(rows, job.subject.document) && j !in ActiveOf(rows, job.subject.document);
  }

  lemma {:induction false} IngestionAdded(p: Parser, s: Store, id: nat, job: Job<DocumentJob, nat>)
    requires Coherent(p, s) && id !in s.ingestions && Owns(s.docs, job.subject.tenant, job.subject.document)
    requires ActiveOf(s.ingestions, job.subject.document) == {}
    ensures Coherent(p, s.(ingestions := s.ingestions[id := job]))
  {
    var t := s.(ingestions := s.ingestions[id := job]);
    KeepsDocuments(p, s, t);
    forall j: nat ensures RowsOk(t, j) {
      assert RowsOk(s, j);
    }
    forall i: nat, j: nat ensures OneActive(t.ingestions, i, j) {
      assert OneActive(s.ingestions, i, j);
      EnqueueKeepsOneActive(s.ingestions, job, id, i, j);
    }
  }

  lemma {:induction false} ExtractionAdded(p: Parser, s: Store, id: nat, job: Job<DocumentJob, ObligationExtraction>)
    requires Coherent(p, s) && id !in s.extractions && id !in s.reports
    requires Owns(s.docs, job.subject.tenant, job.subject.document) && job.subject.document in s.texts
    requires job.result.None?
    requires ActiveOf(s.extractions, job.subject.document) == {}
    ensures Coherent(p, s.(extractions := s.extractions[id := job]))
  {
    var t := s.(extractions := s.extractions[id := job]);
    KeepsDocuments(p, s, t);
    forall j: nat ensures RowsOk(t, j) {
      assert RowsOk(s, j);
    }
    forall i: nat, j: nat ensures OneActive(t.extractions, i, j) {
      assert OneActive(s.extractions, i, j);
      EnqueueKeepsOneActive(s.extractions, job, id, i, j);
    }
  }

  lemma {:induction false} ReportAdded(p: Parser, s: Store, id: nat, job: Job<ReportJob, seq<ReportEntry>>)
    requires Coherent(p, s) && id !in s.reports && id !in s.extractions && job.result.None?
    requires Owns(s.docs, job.subject.tenant, job.subject.base) && Owns(s.docs, job.subject.tenant, job.subject.amended)
    requires s.docs[job.subject.amended].amends == Some(job.subject.base)
    requires job.subject.base in s.texts && job.subject.amended in s.texts
    ensures Coherent(p, s.(reports := s.reports[id := job]))
  {
    var t := s.(reports := s.reports[id := job]);
    KeepsDocuments(p, s, t);
    forall j: nat ensures RowsOk(t, j) {
      assert RowsOk(s, j);
    }
  }

  lemma {:induction false} EnqueuesKeep(
      p: Parser, s: Store, tenant: nat, document: nat, amended: nat, id: nat, now: nat)
    requires Coherent(p, s)
    ensures id !in s.ingestions ==> Coherent(p, EnqueueIngestion(s, tenant, document, id, now))
    ensures id !in s.extractions && id !in s.reports ==> Coherent(p, EnqueueExtraction(s, tenant, document, id, now))
    ensures id !in s.extractions && id !in s.reports ==>
        Coherent(p, EnqueueReport(s, tenant, document, amended, id, now))
  {
    LatestIsNewest(s.ingestions, ActiveOf(s.ingestions, document));
    LatestIsNewest(s.extractions, ActiveOf(s.extractions, document));
    assert DocOk(s, document) && DocOk(s, amended);
    if id !in s.ingestions && IngestionRefusal(s, tenant, document).None? {
      IngestionAdded(p, s, id, NewJob(DocumentJob(tenant, document), now));
    }
    if id !in s.extractions && id !in s.reports {
      if ExtractionRefusal(s, tenant, document).None? {
        ExtractionAdded(p, s, id, NewJob(DocumentJob(tenant, document), now));
      }
      if ReportRefusal(s, tenant, document, amended).None? {
        ReportAdded(p, s, id, NewJob(ReportJob(tenant, document, amended), now));
      }
    }
  }

  ghost predicate SameTextTables(s: Store, t: Store) {
    t.texts == s.texts && t.chunks == s.chunks && t.vectors == s.vectors
  }

  /** Steps that leave documents, files, texts and chunks alone keep what is said of them. */
  lemma {:induction false} KeepsDocuments(p: Parser, s: Store, t: Store)
    requires Coherent(p, s) && t.docs == s.docs && t.files == s.files && SameTextTables(s, t)
    ensures (forall tenant: nat, content: Content :: FileOk(t, tenant, content))
    ensures (forall id: nat :: DocOk(t, id)) && (forall a: nat, b: nat :: Unlike(t, a, b))
    ensures (forall id: nat :: TextOk(p, t, id)) && Forest(t.docs)
  {
    forall tenant: nat, content: Content ensures FileOk(t, tenant, content) {
      assert FileOk(s, tenant, content);
    }
    forall id: nat ensures DocOk(t, id) && TextOk(p, t, id) {
      assert DocOk(s, id) && TextOk(p, s, id);
    }
    forall a: nat, b: nat ensures Unlike(t, a, b) {
      assert Unlike(s, a, b);
    }
  }

  // ----- Rows that only move forward -----

  /** Same rows about the same subjects; none becomes active again. */
  ghost predicate Advances<S, R>(before: Table<S, R>, after: Table<S, R>) {
    && after.Keys == before.Keys
    && forall j <- before :: after[j].subject == before[j].subject && (Active(after[j]) ==> Active(before[j]))
  }

  lemma {:induction false} ClaimAdvances<S, R>(rows: Table<S, R>, now: nat)
    ensures Advances(rows, ClaimTable(rows, now))
    ensures forall j <- rows :: ClaimTable(rows, now)[j].result.Some? ==>
              ClaimTable(rows, now)[j].result == rows[j].result
  {
    NextIdIsOldest(rows, now);
  }

  lemma {:induction false} IngestionsAdvance(p: Parser, s: Store, rows: IngestionTable)
    requires Coherent(p, s) && Advances(s.ingestions, rows)
    ensures Coherent(p, s.(ingestions := rows))
  {
    var t := s.(ingestions := rows);
    KeepsDocuments(p, s, t);
    forall j: nat ensures RowsOk(t, j) {
      assert RowsOk(s, j);
    }
    forall i: nat, j: nat ensures OneActive(rows, i, j) {
      assert OneActive(s.ingestions, i, j);
    }
  }

  lemma {:induction false} ExtractionsAdvance(p: Parser, s: Store, rows: ExtractionTable)
    requires Coherent(p, s) && Advances(s.extractions, rows)
    requires forall j <- rows :: rows[j].result.Some? ==>
               || rows[j].result == s.extractions[j].result
               || (rows[j].subject.document in s.texts
                   && AllGrounded(rows[j].result.value, s.texts[rows[j].subject.document].text))
    ensures Coherent(p, s.(extractions := rows))
  {
    var t := s.(extractions := rows);
    KeepsDocuments(p, s, t);
    forall j: nat ensures RowsOk(t, j) {
      assert RowsOk(s, j);
    }
    forall i: nat, j: nat ensures OneActive(rows, i, j) {
      assert OneActive(s.extractions, i, j);
    }
  }

  ghost predicate ReportResultOk(s: Store, job: Job<ReportJob, seq<ReportEntry>>) {
    job.result.Some? && job.subject.base in s.texts && job.subject.amended in s.texts ==>
      ReportHolds(job.result.value, s.texts[job.subject.base].text, s.texts[job.subject.amended].text)
  }

  lemma {:induction false} ReportsAdvance(p: Parser, s: Store, rows: ReportTable)
    requires Coherent(p, s) && Advances(s.reports, rows)
    requires forall j <- rows :: rows[j].result == s.reports[j].result || ReportResultOk(s, rows[j])
    ensures Coherent(p, s.(reports := rows))
  {
    var t := s.(reports := rows);
    KeepsDocuments(p, s, t);
    forall j: nat ensures RowsOk(t, j) {
      assert RowsOk(s, j);
    }
  }

  lemma {:induction false} StatusKeepsFile(s: Store, t: Store, tenant: nat, content: Content)
    requires FileOk(s, tenant, content) && t.files == s.files && t.docs.Keys == s.docs.Keys
    requires forall id <- s.docs :: t.docs[id].tenant == s.docs[id].tenant && t.docs[id].content == s.docs[id].content
    ensures FileOk(t, tenant, content)
  {
    forall id: nat ensures IsTwin(t.docs, tenant, content, id) <==> IsTwin(s.docs, tenant, content, id) {
    }
  }

  /** A document may turn failed at any time; its text and everything derived from it stay. */
  lemma {:induction false} FailingKeeps(p: Parser, s: Store, d: nat)
    requires Coherent(p, s)
    ensures Coherent(p, s.(docs := SetStatus(s.docs, d, DocFailed)))
  {
    var t := s.(docs := SetStatus(s.docs, d, DocFailed));
    forall j: nat ensures DocOk(t, j) && TextOk(p, t, j) {
      assert DocOk(s, j) && TextOk(p, s, j);
    }
    forall j: nat ensures RowsOk(t, j) {
      assert RowsOk(s, j);
    }
    forall a: nat, b: nat ensures Unlike(t, a, b) {
      assert Unlike(s, a, b);
    }
    forall tenant: nat, content: Content ensures FileOk(t, tenant, content) {
      StatusKeepsFile(s, t, tenant, content);
    }
    var rank: map<nat, nat> :| Ranks(s.docs, rank);
    assert Ranks(t.docs, rank);
  }

  // ----- Claim -----

  lemma {:induction false} ClaimsKeep(p: Parser, s: Store, now: nat)
    requires Coherent(p, s)
    ensures Coherent(p, ClaimIngestion(s, now))
    ensures Coherent(p, ClaimExtraction(s, now))
    ensures Coherent(p, ClaimReport(s, now))
  {
    ClaimAdvances(s.ingestions, now);
    IngestionsAdvance(p, s, ClaimTable(s.ingestions, now));
    var next := NextId(s.ingestions, now);
    if next.Some? && next.value in s.ingestions {
      FailingKeeps(p, s.(ingestions := ClaimTable(s.ingestions, now)), s.ingestions[next.value].subject.document);
    }
    ClaimAdvances(s.extractions, now);
    ExtractionsAdvance(p, s, ClaimTable(s.extractions, now));
    ClaimAdvances(s.reports, now);
    forall j <- s.reports ensures var job := ClaimTable(s.reports, now)[j];
                                  job.result == s.reports[j].result || ReportResultOk(s, job) {
    }
    ReportsAdvance(p, s, ClaimTable(s.reports, now));
  }

  // ----- Finish -----

  /** Exactly the candidates strictly below the threshold become new pending items; old items stay untouched. */
  lemma {:induction false} RoutedIsExact(
      reviews: map<nat, ReviewItem>, item: ReviewItem, candidates: seq<Candidate>, threshold: real,
      firstId: nat, r: nat)
    requires IdsFrom(reviews, firstId)
    ensures var after := Routed(reviews, item, candidates, threshold, firstId);
            if r in reviews then r in after && after[r] == reviews[r]
            else
              && (r in after <==> firstId <= r < firstId + |candidates| && candidates[r - firstId].1 < threshold)
              && (r in after ==>
                    after[r] == item.(payload := candidates[r - firstId].0, confidence := candidates[r - firstId].1))
  {
    if candidates != [] {
      RoutedIsExact(reviews, item, candidates[..|candidates| - 1], threshold, firstId, r);
    }
  }

  /** `item` could be a review item of this store. */
  ghost predicate Reviewable(s: Store, item: ReviewItem) {
    ReviewOk(s.(reviews := map[0 := item]), 0)
  }

  lemma {:induction false} ReviewsChange(p: Parser, s: Store, reviews: map<nat, ReviewItem>)
    requires Coherent(p, s) && forall r: nat :: ReviewOk(s.(reviews := reviews), r)
    ensures Coherent(p, s.(reviews := reviews))
  {
    var t := s.(reviews := reviews);
    KeepsDocuments(p, s, t);
    forall j: nat ensures RowsOk(t, j) {
      assert RowsOk(s, j) && ReviewOk(t, j);
    }
  }

  lemma {:induction false} RoutingKeeps(
      p: Parser, s: Store, item: ReviewItem, candidates: seq<Candidate>, threshold: real, firstId: nat)
    requires Coherent(p, s) && IdsFrom(s.reviews, firstId) && Reviewable(s, item)
    ensures Coherent(p, s.(reviews := Routed(s.reviews, item, candidates, threshold, firstId)))
  {
    var t := s.(reviews := Routed(s.reviews, item, candidates, threshold, firstId));
    forall r: nat ensures ReviewOk(t, r) {
      assert RowsOk(s, r);
      RoutedIsExact(s.reviews, item, candidates, threshold, firstId, r);
    }
    ReviewsChange(p, s, t.reviews);
  }

  lemma {:induction false} IngestedDocOk(
      p: Parser, s: Store, d: nat, entries: seq<Entry>, vectors: seq<Vector>, id: nat)
    requires Coherent(p, s) && d in s.docs && p(s.docs[d].mime, s.docs[d].content) == Ok(entries)
    requires |vectors| == |ChunkList(entries)|
    ensures DocOk(Ingested(s, d, entries, vectors), id) && TextOk(p, Ingested(s, d, entries, vectors), id)
  {
    var t, rows := Ingested(s, d, entries, vectors), RowsOf(d, ChunkList(entries));
    assert DocOk(s, id) && TextOk(p, s, id);
    assert id == d ==> ChunksFor(t.chunks, id) == rows;
    assert id != d ==> ChunksFor(t.chunks, id) == ChunksFor(s.chunks, id);
  }

  lemma {:induction false} IngestedRowsOk(
      p: Parser, s: Store, d: nat, entries: seq<Entry>, vectors: seq<Vector>, j: nat)
    requires Coherent(p, s) && d in s.docs && p(s.docs[d].mime, s.docs[d].content) == Ok(entries)
    ensures RowsOk(Ingested(s, d, entries, vectors), j)
    ensures d in s.texts ==> Ingested(s, d, entries, vectors).texts == s.texts
  {
    assert RowsOk(s, j) && TextOk(p, s, d);
  }

  /** Parsing is deterministic, so a re-run rewrites the very same text and every citation into it stays grounded. */
  lemma {:induction false} IngestingKeeps(p: Parser, s: Store, d: nat, entries: seq<Entry>, vectors: seq<Vector>)
    requires Coherent(p, s) && d in s.docs && p(s.docs[d].mime, s.docs[d].content) == Ok(entries)
    requires |vectors| == |ChunkList(entries)|
    ensures Coherent(p, Ingested(s, d, entries, vectors))
    ensures d in s.texts ==> Ingested(s, d, entries, vectors).texts == s.texts
  {
    var t := Ingested(s, d, entries, vectors);
    forall j: nat ensures DocOk(t, j) && TextOk(p, t, j) && RowsOk(t, j) {
      IngestedDocOk(p, s, d, entries, vectors, j);
      IngestedRowsOk(p, s, d, entries, vectors, j);
    }
    assert d in s.texts ==> t.texts == s.texts by {
      IngestedRowsOk(p, s, d, entries, vectors, 0);
    }
    forall a: nat, b: nat ensures Unlike(t, a, b) {
      assert Unlike(s, a, b);
    }
    forall tenant: nat, content: Content ensures FileOk(t, tenant, content) {
      StatusKeepsFile(s, t, tenant, content);
    }
    var rank: map<nat, nat> :| Ranks(s.docs, rank);
    assert Ranks(t.docs, rank);
  }

  /** The stored file is always there, and an ingestion never finds its document gone. */
  lemma {:induction false} IngestionFindsFile(p: Parser, s: Store, j: nat)
    requires Coherent(p, s) && j in s.ingestions
    ensures var subject := s.ingestions[j].subject;
            Owns(s.docs, subject.tenant, subject.document)
            && (subject.tenant, s.docs[subject.document].content) in s.files
  {
    assert RowsOk(s, j);
    var subject := s.ingestions[j].subject;
    var content := s.docs[subject.document].content;
    assert FileOk(s, subject.tenant, content);
    assert IsTwin(s.docs, subject.tenant, content, subject.document);
  }

  lemma {:induction false} FailIngestionKeeps(p: Parser, s: Store, j: nat, error: string)
    requires Coherent(p, s) && j in s.ingestions
    ensures Coherent(p, FailIngestion(s, j, error))
  {
    var rows := s.ingestions[j := FailedRow(s.ingestions[j], error)];
    IngestionsAdvance(p, s, rows);
    FailingKeeps(p, s.(ingestions := rows), s.ingestions[j].subject.document);
  }

  lemma {:induction false} SettleIngestionKeeps(
      p: Parser, s: Store, j: nat, outcome: Result<(seq<Entry>, seq<Vector>), string>)
    requires Coherent(p, s) && j in s.ingestions && s.ingestions[j].subject.document in s.docs
    requires var d := s.docs[s.ingestions[j].subject.document];
             outcome.Ok? ==> p(d.mime, d.content) == Ok(outcome.value.0)
    ensures Coherent(p, SettleIngestion(s, j, outcome))
  {
    match outcome
    case Err(error) => FailIngestionKeeps(p, s, j, error);
    case Ok(parsed) =>
      if !WrongTotal(outcome) {
        var ingested := Ingested(s, s.ingestions[j].subject.document, parsed.0, parsed.1);
        IngestingKeeps(p, s, s.ingestions[j].subject.document, parsed.0, parsed.1);
        IngestionsAdvance(p, ingested, SettleIngestion(s, j, outcome).ingestions);
      }
  }

  lemma {:induction false} FinishIngestionKeeps(p: Parser, s: Store, j: nat, ask: Endpoint<Vector>)
    requires Coherent(p, s) && j in s.ingestions
    ensures Coherent(p, FinishIngestion(p, s, j, ask))
  {
    IngestionFindsFile(p, s, j);
    SettleIngestionKeeps(p, s, j, IngestionOutcome(p, s, s.ingestions[j].subject.document, ask));
  }

  lemma {:induction false} SettleExtractionKeeps(
      p: Parser, s: Store, j: nat, outcome: Result<ObligationExtraction, string>, threshold: real, firstId: nat)
    requires Coherent(p, s) && j in s.extractions && IdsFrom(s.reviews, firstId)
    requires s.extractions[j].subject.document in s.texts
    requires outcome.Ok? ==> AllGrounded(outcome.value, s.texts[s.extractions[j].subject.document].text)
    ensures Coherent(p, SettleExtraction(s, j, outcome, threshold, firstId))
  {
    var t := SettleExtraction(s, j, outcome, threshold, firstId);
    var subject := s.extractions[j].subject;
    assert RowsOk(s, j);
    ExtractionsAdvance(p, s, t.extractions);
    if outcome.Ok? {
      var item := PendingItem(subject.tenant, FromExtraction, subject.document, j);
      RoutingKeeps(p, s.(extractions := t.extractions), item, ExtractionCandidates(outcome.value), threshold, firstId);
    }
  }

  lemma {:induction false} FinishExtractionKeeps(
      p: Parser, s: Store, j: nat, replies: seq<Reply>, threshold: real, firstId: nat)
    requires Coherent(p, s) && j in s.extractions && |replies| == CITATION_ATTEMPTS && IdsFrom(s.reviews, firstId)
    ensures Coherent(p, FinishExtraction(s, j, replies, threshold, firstId))
  {
    var subject := s.extractions[j].subject;
    assert RowsOk(s, j);
    ExtractedIsGrounded(replies, s.texts[subject.document].text);
    SettleExtractionKeeps(p, s, j, ExtractionOutcome(s, subject, replies), threshold, firstId);
  }

  lemma {:induction false} SettleReportKeeps(
      p: Parser, s: Store, j: nat, outcome: Result<seq<ReportEntry>, string>, threshold: real, firstId: nat)
    requires Coherent(p, s) && j in s.reports && IdsFrom(s.reviews, firstId)
    requires var subject := s.reports[j].subject;
             outcome.Ok? && subject.base in s.texts && subject.amended in s.texts ==>
               ReportHolds(outcome.value, s.texts[subject.base].text, s.texts[subject.amended].text)
    ensures Coherent(p, SettleReport(s, j, outcome, threshold, firstId))
  {
    var t := SettleReport(s, j, outcome, threshold, firstId);
    var subject := s.reports[j].subject;
    assert RowsOk(s, j);
    assert ReportResultOk(s, t.reports[j]);
    ReportsAdvance(p, s, t.reports);
    if outcome.Ok? {
      var item := PendingItem(subject.tenant, FromReport, subject.base, j);
      RoutingKeeps(p, s.(reports := t.reports), item, ImpactCandidates(outcome.value), threshold, firstId);
    }
  }

  lemma {:induction false} ReportedHolds(
      baseText: string, amendedText: string, obligations: seq<Obligation>, explained: ExplainReply, o: Oracle)
    requires forall x <- obligations :: Grounded(x.citation, baseText)
    ensures var r := ReportOf(baseText, amendedText, obligations, explained, o);
            r.Ok? ==> ReportHolds(r.value, baseText, amendedText)
  {
    var r := ReportOf(baseText, amendedText, obligations, explained, o);
    if r.Ok? {
      forall i | 0 <= i < |r.value| ensures r.value[i].explanation.index == i {
        EntriesAnswerTheirChanges(baseText, amendedText, obligations, explained, o, i);
      }
      forall entry | entry in r.value
        ensures forall impact <- entry.impacts :: Grounded(impact.0.citation, baseText)
        ensures Quotes(entry.baseExcerpt, baseText, entry.change.baseSpan)
        ensures Quotes(entry.amendedExcerpt, amendedText, entry.change.amendedSpan)
      {
        var i :| 0 <= i < |r.value| && r.value[i] == entry;
        EntriesAnswerTheirChanges(baseText, amendedText, obligations, explained, o, i);
      }
    }
  }

  lemma {:induction false} FinishReportKeeps(
      p: Parser, s: Store, j: nat, obligations: seq<Obligation>, explained: ExplainReply, o: Oracle, threshold: real,
      firstId: nat)
    requires Coherent(p, s) && j in s.reports && IdsFrom(s.reviews, firstId)
    requires Readable(s, s.reports[j].subject.base, obligations)
    ensures Coherent(p, FinishReport(s, j, obligations, explained, o, threshold, firstId))
  {
    var subject := s.reports[j].subject;
    if subject.base in s.texts && subject.amended in s.texts {
      ReportedHolds(s.texts[subject.base].text, s.texts[subject.amended].text, obligations, explained, o);
    }
    SettleReportKeeps(p, s, j, ReportOutcome(s, subject, obligations, explained, o), threshold, firstId);
  }

  /** What a report handler reads of a base version cites that version's text. */
  lemma {:induction false} BaseObligationsAreReadable(p: Parser, s: Store, document: nat)
    requires Coherent(p, s)
    ensures Readable(s, document, BaseObligations(s.extractions, document))
  {
    var ids := JobsOf(s.extractions, document);
    LatestIsNewest(s.extractions, ids);
    var latest := Latest(s.extractions, ids);
    if latest.Some? {
      assert RowsOk(s, latest.value);
    }
  }

  // ----- Resolve -----

  lemma {:induction false} ResolveKeeps(
      p: Parser, s: Store, tenant: nat, item: nat, disposition: Disposition, corrected: Option<string>, now: nat)
    requires Coherent(p, s)
    ensures Coherent(p, Resolve(s, tenant, item, disposition, corrected, now))
  {
    var t := Resolve(s, tenant, item, disposition, corrected, now);
    forall r: nat ensures ReviewOk(t, r) {
      assert RowsOk(s, r);
    }
    ReviewsChange(p, s, t.reviews);
  }

  // ----- Every run -----

  lemma {:induction false} DoKeeps(p: Parser, s: Store, e: Step)
    requires Coherent(p, s) && Possible(s, e)
    ensures Coherent(p, Do(p, s, e))
  {
    match e
    case Uploading(u, maxBytes, id) => UploadKeeps(p, s, u, maxBytes, id);
    case Deleting(tenant, id) => DeleteKeeps(p, s, tenant, id);
    case RequestIngestion(tenant, document, id, now) => EnqueuesKeep(p, s, tenant, document, 0, id, now);
    case RequestExtraction(tenant, document, id, now) => EnqueuesKeep(p, s, tenant, document, 0, id, now);
    case RequestReport(tenant, base, amended, id, now) => EnqueuesKeep(p, s, tenant, base, amended, id, now);
    case IngestionClaim(now) => ClaimsKeep(p, s, now);
    case ExtractionClaim(now) => ClaimsKeep(p, s, now);
    case ReportClaim(now) => ClaimsKeep(p, s, now);
    case IngestionFinish(job, ask) => FinishIngestionKeeps(p, s, job, ask);
    case ExtractionFinish(job, replies, threshold, firstId) =>
      FinishExtractionKeeps(p, s, job, replies, threshold, firstId);
    case ReportFinish(job, obligations, explained, o, threshold, firstId) =>
      FinishReportKeeps(p, s, job, obligations, explained, o, threshold, firstId);
    case Resolving(tenant, item, disposition, corrected, now) =>
      ResolveKeeps(p, s, tenant, item, disposition, corrected, now);
  }

  ghost predicate IsHistory(p: Parser, s: Store, steps: seq<Step>)
    decreases |steps|
  {
    steps == [] || (Possible(s, steps[0]) && IsHistory(p, Do(p, s, steps[0]), steps[1..]))
  }

  ghost function StoreAfter(p: Parser, s: Store, steps: seq<Step>): Store
    requires IsHistory(p, s, steps)
    decreases |steps|
  {
    if steps == [] then s else StoreAfter(p, Do(p, s, steps[0]), steps[1..])
  }

  lemma {:induction false} EmptyIsCoherent(p: Parser)
    ensures Coherent(p, Empty())
  {
    forall tenant: nat, content: Content ensures FileOk(Empty(), tenant, content) {
    }
    var rank: map<nat, nat> := map[];
    assert Ranks(Empty().docs, rank);
  }

  /** Every state reachable from a coherent one, in any order of steps, is coherent. */
  lemma {:induction false} RunsAreCoherent(p: Parser, s: Store, steps: seq<Step>)
    requires Coherent(p, s) && IsHistory(p, s, steps)
    ensures Coherent(p, StoreAfter(p, s, steps))
    decreases |steps|
  {
    if steps != [] {
      DoKeeps(p, s, steps[0]);
      RunsAreCoherent(p, Do(p, s, steps[0]), steps[1..]);
    }
  }
}
