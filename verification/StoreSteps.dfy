/** What each step does to the rows it is about. */
module StoreSteps {
  import opened Wrappers
  import opened Parsing
  import opened Chunking
  import opened ClauseChunks
  import opened Embedding
  import opened Jobs
  import opened Extraction
  import opened Report
  import opened Store
  import opened StoreLaws
  import opened StoreGates

  // ----- Upload -----

  /** Type and size are as allowed and declared, and the parent is the tenant's own. */
  predicate WellOffered(s: Store, u: Upload, maxBytes: nat) {
    && u.declared.Some? && |u.content| <= maxBytes && u.sniffed == u.declared
    && (u.amends.Some? ==> Owns(s.docs, u.tenant, u.amends.value))
  }

  /** An upload is accepted exactly if it is well offered and new; else the first check that fails is named. */
  lemma {:induction false} UploadGateIsExact(s: Store, u: Upload, maxBytes: nat)
    ensures var refusal := UploadRefusal(s, u, maxBytes);
            && (refusal.None? <==>
                  WellOffered(s, u, maxBytes) && forall a: nat :: !IsTwin(s.docs, u.tenant, u.content, a))
            && (refusal == Some(TooLarge) <==> u.declared.Some? && |u.content| > maxBytes)
            && (refusal == Some(MimeNotAllowed) <==>
                  u.declared.None? || (|u.content| <= maxBytes && u.sniffed != u.declared))
            && (refusal == Some(ParentNotFound) <==>
                  && u.declared.Some? && |u.content| <= maxBytes && u.sniffed == u.declared
                  && u.amends.Some? && !Owns(s.docs, u.tenant, u.amends.value))
  {
  }

  /** An accepted upload adds one unparsed document with what was offered, and its file. */
  lemma {:induction false} UploadAddsDocument(s: Store, u: Upload, maxBytes: nat, id: nat)
    requires id !in s.docs && UploadRefusal(s, u, maxBytes).None?
    ensures var t := UploadDocument(s, u, maxBytes, id);
            && t.docs.Keys == s.docs.Keys + {id} && (forall a <- s.docs :: t.docs[a] == s.docs[a])
            && t.docs[id].tenant == u.tenant && u.declared == Some(t.docs[id].mime)
            && t.docs[id].content == u.content && t.docs[id].amends == u.amends && t.docs[id].status == DocUploaded
            && t.files == s.files + {(u.tenant, u.content)}
            && SameTextTables(s, t) && t.ingestions == s.ingestions && t.extractions == s.extractions
            && t.reports == s.reports && t.reviews == s.reviews
  {
  }

  // ----- Delete -----

  ghost predicate SameDocument(s: Store, t: Store, id: nat) {
    && (id in s.docs <==> id in t.docs) && (id in s.docs ==> t.docs[id] == s.docs[id])
    && (id in s.texts <==> id in t.texts) && (id in s.texts ==> t.texts[id] == s.texts[id])
    && (id in s.vectors <==> id in t.vectors) && (id in s.vectors ==> t.vectors[id] == s.vectors[id])
    && ChunksFor(t.chunks, id) == ChunksFor(s.chunks, id)
  }

  /** The item is about the document, or came from a report in which the document is the amendment. */
  predicate ReviewsDocument(s: Store, item: ReviewItem, id: nat) {
    item.document == id
    || (item.source == FromReport && item.job in s.reports && s.reports[item.job].subject.amended == id)
  }

  /** Exactly the rows of the jobs and items of a document that is gone are gone. */
  ghost predicate RowsGone(s: Store, t: Store, id: nat, j: nat) {
    && (j in t.ingestions <==> j in s.ingestions && s.ingestions[j].subject.document != id)
    && (j in t.ingestions ==> t.ingestions[j] == s.ingestions[j])
    && (j in t.extractions <==> j in s.extractions && s.extractions[j].subject.document != id)
    && (j in t.extractions ==> t.extractions[j] == s.extractions[j])
    && (j in t.reports <==> j in s.reports && id !in {s.reports[j].subject.base, s.reports[j].subject.amended})
    && (j in t.reports ==> t.reports[j] == s.reports[j])
    && (j in t.reviews <==> j in s.reviews && !ReviewsDocument(s, s.reviews[j], id))
    && (j in t.reviews ==> t.reviews[j] == s.reviews[j])
  }

  lemma {:induction false} DeleteRemovesRows(p: Parser, s: Store, tenant: nat, id: nat, j: nat)
    requires Coherent(p, s) && DeleteRefusal(s, tenant, id).None?
    ensures RowsGone(s, DeleteDocument(s, tenant, id), id, j)
  {
    assert RowsOk(s, j);
    if j in s.reviews {
      assert RowsOk(s, s.reviews[j].job);
    }
  }

  /** An accepted deletion removes exactly the document and what is about it, from every table and from disk. */
  lemma {:induction false} DeleteRemovesExactly(p: Parser, s: Store, tenant: nat, id: nat, a: nat, j: nat)
    requires Coherent(p, s) && DeleteRefusal(s, tenant, id).None?
    ensures var t := DeleteDocument(s, tenant, id);
            && id !in t.docs && id !in t.texts && id !in t.vectors && ChunksFor(t.chunks, id) == {}
            && t.files == s.files - {(tenant, s.docs[id].content)}
            && (a != id ==> SameDocument(s, t, a)) && RowsGone(s, t, id, j)
  {
    var t := DeleteDocument(s, tenant, id);
    DeleteRemovesRows(p, s, tenant, id, j);
    if a != id {
      assert ChunksFor(t.chunks, a) == ChunksFor(s.chunks, a);
    }
  }

  // ----- Enqueue -----

  /** The table has one more row: queued now, never claimed. */
  ghost predicate QueuesOne<S, R>(before: Table<S, R>, after: Table<S, R>, id: nat, subject: S, now: nat) {
    && after.Keys == before.Keys + {id} && (forall j <- before :: after[j] == before[j])
    && after[id].subject == subject && after[id].createdAt == now && after[id].status == Queued
    && after[id].attempts == 0 && after[id].lease.None? && after[id].result.None? && after[id].error.None?
  }

  /** An accepted request leaves one unfinished job of its kind for the document, queued. */
  lemma {:induction false} AcceptedIngestionIsQueued(
      p: Parser, s: Store, tenant: nat, document: nat, id: nat, now: nat)
    requires Coherent(p, s) && id !in s.ingestions && IngestionRefusal(s, tenant, document).None?
    ensures var t := EnqueueIngestion(s, tenant, document, id, now);
            && QueuesOne(s.ingestions, t.ingestions, id, DocumentJob(tenant, document), now)
            && ActiveOf(t.ingestions, document) == {id} && t == s.(ingestions := t.ingestions)
  {
    IngestionGateIsExact(p, s, tenant, document, id);
  }

  lemma {:induction false} AcceptedExtractionIsQueued(
      p: Parser, s: Store, tenant: nat, document: nat, id: nat, now: nat)
    requires Coherent(p, s) && id !in s.extractions && ExtractionRefusal(s, tenant, document).None?
    ensures var t := EnqueueExtraction(s, tenant, document, id, now);
            && QueuesOne(s.extractions, t.extractions, id, DocumentJob(tenant, document), now)
            && ActiveOf(t.extractions, document) == {id} && t == s.(extractions := t.extractions)
  {
    ExtractionGateIsExact(p, s, tenant, document, id);
  }

  lemma {:induction false} AcceptedReportIsQueued(s: Store, tenant: nat, base: nat, amended: nat, id: nat, now: nat)
    requires id !in s.reports && ReportRefusal(s, tenant, base, amended).None?
    ensures var t := EnqueueReport(s, tenant, base, amended, id, now);
            && QueuesOne(s.reports, t.reports, id, ReportJob(tenant, base, amended), now)
            && t == s.(reports := t.reports)
  {
  }

  /** A job queued later than all others of its document is the document's latest. */
  lemma {:induction false} LaterJobIsLatest<R>(
      before: Table<DocumentJob, R>, after: Table<DocumentJob, R>, id: nat, subject: DocumentJob, now: nat)
    requires id !in before && QueuesOne(before, after, id, subject, now)
    requires forall j <- before :: before[j].subject.document == subject.document ==> before[j].createdAt < now
    ensures Latest(after, JobsOf(after, subject.document)) == Some(id)
  {
    var ids := JobsOf(after, subject.document);
    LatestIsNewest(after, ids);
    assert IsLatest(after, ids, id);
  }

  // ----- Claim and finish of an ingestion -----

  /** A job that has used up its attempts fails when it is claimed, and its document with it. */
  lemma {:induction false} CappedClaimFailsDocument(p: Parser, s: Store, now: nat, j: nat)
    requires Coherent(p, s) && IsNext(s.ingestions, now, j) && s.ingestions[j].attempts >= MAX_ATTEMPTS
    ensures var t, d := ClaimIngestion(s, now), s.ingestions[j].subject.document;
            && j in t.ingestions && t.ingestions[j].status == Jobs.Failed
            && d in t.docs && t.docs[d].status == DocFailed
  {
    NextIdIsOldest(s.ingestions, now);
    IngestionFindsFile(p, s, j);
  }

  /** `texts` are the texts of the chunks, in order. */
  ghost predicate AreTextsOf(texts: seq<string>, chunks: seq<Chunk>) {
    |texts| == |chunks| && forall i :: 0 <= i < |texts| ==> texts[i] == chunks[i].text
  }

  lemma {:induction false} TextsAreChunkTexts(texts: seq<string>, chunks: seq<Chunk>)
    requires AreTextsOf(texts, chunks)
    ensures texts == ChunkTexts(chunks)
  {
  }

  /** The document the job is about. */
  function SubjectOf(s: Store, j: nat): nat
    requires j in s.ingestions
  {
    s.ingestions[j].subject.document
  }

  /** The row ended with this error, cut to its limit, and without result. */
  predicate FailedWith<S, R>(job: Job<S, R>, error: string) {
    && job.status == Jobs.Failed && job.error.Some? && job.result.None? && job.lease.None?
    && job.error.value <= error && (job.error.value == error || |job.error.value| == MAX_ERROR_CHARS)
  }

  predicate CompletedWith<S, R(==)>(job: Job<S, R>, result: R) {
    job.status == Jobs.Completed && job.result == Some(result) && job.error.None? && job.lease.None?
  }

  /** When the bytes parse and every chunk gets a vector, the document is parsed and the job is done. */
  lemma {:induction false} IngestionSucceeds(
      p: Parser, s: Store, j: nat, ask: Endpoint<Vector>, entries: seq<Entry>, texts: seq<string>)
    requires Coherent(p, s) && j in s.ingestions && SubjectOf(s, j) in s.docs
    requires p(s.docs[SubjectOf(s, j)].mime, s.docs[SubjectOf(s, j)].content) == Ok(entries)
    requires AreTextsOf(texts, ChunkList(entries)) && TotalRight(texts, ask)
    ensures var t, d := FinishIngestion(p, s, j, ask), SubjectOf(s, j);
            && d in t.docs && t.docs[d] == s.docs[d].(status := DocParsed)
            && d in t.texts && t.texts[d].text == Built(entries).text && t.texts[d].pageMap == Built(entries).pageMap
            && ChunksFor(t.chunks, d) == RowsOf(d, ChunkList(entries))
            && d in t.vectors && Ok(t.vectors[d]) == Embedded(texts, ask, 0)
            && j in t.ingestions && CompletedWith(t.ingestions[j], |ChunkList(entries)|)
            && t.extractions == s.extractions && t.reports == s.reports && t.reviews == s.reviews
  {
    var t, d := FinishIngestion(p, s, j, ask), SubjectOf(s, j);
    IngestionFindsFile(p, s, j);
    TextsAreChunkTexts(texts, ChunkList(entries));
    assert ChunksFor(t.chunks, d) == RowsOf(d, ChunkList(entries));
  }

  /** With one vector per text in every reply, stored vector `i` is what the endpoint gave for the text of chunk `i`. */
  lemma {:induction false} StoredVectorsAreOwn(
      p: Parser, s: Store, j: nat, ask: Endpoint<Vector>, entries: seq<Entry>, texts: seq<string>)
    requires Coherent(p, s) && j in s.ingestions && SubjectOf(s, j) in s.docs
    requires p(s.docs[SubjectOf(s, j)].mime, s.docs[SubjectOf(s, j)].content) == Ok(entries)
    requires AreTextsOf(texts, ChunkList(entries)) && InFull(texts, ask, 0)
    ensures var t, d := FinishIngestion(p, s, j, ask), SubjectOf(s, j);
            && d in t.vectors && |t.vectors[d]| == |texts|
            && forall i :: 0 <= i < |texts| ==> t.vectors[d][i] == VectorFor(texts, ask, 0, i)
  {
    VectorsAreAligned(texts, ask, 0);
    IngestionSucceeds(p, s, j, ask, entries, texts);
  }

  /** When parsing or embedding fails, document and job fail, with that error. */
  lemma {:induction false} IngestionFails(p: Parser, s: Store, j: nat, ask: Endpoint<Vector>, error: string)
    requires Coherent(p, s) && j in s.ingestions && SubjectOf(s, j) in s.docs
    requires var parsed := p(s.docs[SubjectOf(s, j)].mime, s.docs[SubjectOf(s, j)].content);
             parsed == Err(error) || (parsed.Ok? && Embedded(ChunkTexts(ChunkList(parsed.value)), ask, 0) == Err(error))
    ensures var t, d := FinishIngestion(p, s, j, ask), SubjectOf(s, j);
            && d in t.docs && t.docs[d] == s.docs[d].(status := DocFailed)
            && SameTextTables(s, t) && j in t.ingestions && FailedWith(t.ingestions[j], error)
  {
    IngestionFindsFile(p, s, j);
  }

  /** A wrong number of vectors leaves everything as it was. */
  lemma {:induction false} WrongTotalChangesNothing(
      p: Parser, s: Store, j: nat, ask: Endpoint<Vector>, entries: seq<Entry>, texts: seq<string>)
    requires Coherent(p, s) && j in s.ingestions && SubjectOf(s, j) in s.docs
    requires p(s.docs[SubjectOf(s, j)].mime, s.docs[SubjectOf(s, j)].content) == Ok(entries)
    requires AreTextsOf(texts, ChunkList(entries)) && Embedded(texts, ask, 0).Ok? && !TotalRight(texts, ask)
    ensures FinishIngestion(p, s, j, ask) == s
  {
    IngestionFindsFile(p, s, j);
    TextsAreChunkTexts(texts, ChunkList(entries));
  }

  // ----- From upload to extraction -----

  function FirstSteps(u: Upload, maxBytes: nat, now: nat, ask: Endpoint<Vector>): seq<Step> {
    [Uploading(u, maxBytes, 0), RequestIngestion(u.tenant, 0, 0, now), IngestionClaim(now), IngestionFinish(0, ask)]
  }

  /** Uploaded and queued for ingestion, which is next. */
  ghost predicate AwaitsIngestion(s: Store, u: Upload, now: nat) {
    && 0 in s.docs && s.docs[0].tenant == u.tenant && u.declared == Some(s.docs[0].mime)
    && s.docs[0].content == u.content && s.extractions == map[]
    && IsNext(s.ingestions, now, 0) && SubjectOf(s, 0) == 0 && s.ingestions[0].attempts == 0
  }

  lemma {:induction false} UploadedIsQueued(p: Parser, u: Upload, maxBytes: nat, now: nat) returns (s: Store)
    requires WellOffered(Empty(), u, maxBytes)
    ensures s == EnqueueIngestion(UploadDocument(Empty(), u, maxBytes, 0), u.tenant, 0, 0, now)
    ensures Coherent(p, s) && AwaitsIngestion(s, u, now)
  {
    EmptyIsCoherent(p);
    UploadGateIsExact(Empty(), u, maxBytes);
    UploadAddsDocument(Empty(), u, maxBytes, 0);
    UploadKeeps(p, Empty(), u, maxBytes, 0);
    var uploaded := UploadDocument(Empty(), u, maxBytes, 0);
    IngestionGateIsExact(p, uploaded, u.tenant, 0, 0);
    AcceptedIngestionIsQueued(p, uploaded, u.tenant, 0, 0, now);
    EnqueuesKeep(p, uploaded, u.tenant, 0, 0, 0, now);
    s := EnqueueIngestion(uploaded, u.tenant, 0, 0, now);
  }

  lemma {:induction false} QueuedGetsParsed(
      p: Parser, s: Store, u: Upload, now: nat, ask: Endpoint<Vector>, entries: seq<Entry>, texts: seq<string>)
    requires Coherent(p, s) && AwaitsIngestion(s, u, now)
    requires u.declared.Some? && p(u.declared.value, u.content) == Ok(entries)
    requires AreTextsOf(texts, ChunkList(entries)) && TotalRight(texts, ask)
    ensures WasClaimed(ClaimIngestion(s, now).ingestions, 0)
    ensures ExtractionRefusal(FinishIngestion(p, ClaimIngestion(s, now), 0, ask), u.tenant, 0).None?
  {
    var t := ClaimIngestion(s, now);
    NextIdIsOldest(s.ingestions, now);
    ClaimsKeep(p, s, now);
    IngestionSucceeds(p, t, 0, ask, entries, texts);
    FinishIngestionKeeps(p, t, 0, ask);
    ExtractionGateIsExact(p, FinishIngestion(p, t, 0, ask), u.tenant, 0, 0);
  }

  lemma {:induction false} HistoryAppend(p: Parser, s: Store, steps: seq<Step>, t: Store, e: Step)
    requires IsHistory(p, s, steps) && StoreAfter(p, s, steps) == t && Possible(t, e)
    ensures IsHistory(p, s, steps + [e]) && StoreAfter(p, s, steps + [e]) == Do(p, t, e)
    decreases |steps|
  {
    if steps == [] {
      assert steps + [e] == [e] && [e][1..] == [];
      assert IsHistory(p, Do(p, t, e), []);
    } else {
      HistoryAppend(p, Do(p, s, steps[0]), steps[1..], t, e);
      assert (steps + [e])[1..] == steps[1..] + [e];
    }
  }

  lemma {:induction false} FirstTwoSteps(p: Parser, u: Upload, maxBytes: nat, now: nat, ask: Endpoint<Vector>)
    ensures var steps := FirstSteps(u, maxBytes, now, ask)[..2];
            IsHistory(p, Empty(), steps)
            && StoreAfter(p, Empty(), steps)
               == EnqueueIngestion(UploadDocument(Empty(), u, maxBytes, 0), u.tenant, 0, 0, now)
  {
    var steps := FirstSteps(u, maxBytes, now, ask);
    HistoryAppend(p, Empty(), [], Empty(), steps[0]);
    HistoryAppend(p, Empty(), [steps[0]], UploadDocument(Empty(), u, maxBytes, 0), steps[1]);
    assert [] + [steps[0]] == [steps[0]] && [steps[0]] + [steps[1]] == steps[..2];
  }

  lemma {:induction false} LastTwoSteps(p: Parser, steps: seq<Step>, s: Store, now: nat, ask: Endpoint<Vector>)
    requires IsHistory(p, Empty(), steps) && StoreAfter(p, Empty(), steps) == s
    requires WasClaimed(ClaimIngestion(s, now).ingestions, 0)
    ensures var longer := steps + [IngestionClaim(now)] + [IngestionFinish(0, ask)];
            IsHistory(p, Empty(), longer)
            && StoreAfter(p, Empty(), longer) == FinishIngestion(p, ClaimIngestion(s, now), 0, ask)
  {
    HistoryAppend(p, Empty(), steps, s, IngestionClaim(now));
    HistoryAppend(p, Empty(), steps + [IngestionClaim(now)], ClaimIngestion(s, now), IngestionFinish(0, ask));
  }

  lemma {:induction false} FirstStepsRun(
      p: Parser, u: Upload, maxBytes: nat, now: nat, ask: Endpoint<Vector>, s: Store)
    requires s == EnqueueIngestion(UploadDocument(Empty(), u, maxBytes, 0), u.tenant, 0, 0, now)
    requires WasClaimed(ClaimIngestion(s, now).ingestions, 0)
    ensures IsHistory(p, Empty(), FirstSteps(u, maxBytes, now, ask))
    ensures StoreAfter(p, Empty(), FirstSteps(u, maxBytes, now, ask))
            == FinishIngestion(p, ClaimIngestion(s, now), 0, ask)
  {
    var steps := FirstSteps(u, maxBytes, now, ask);
    FirstTwoSteps(p, u, maxBytes, now, ask);
    LastTwoSteps(p, steps[..2], s, now, ask);
    assert steps[..2] + [IngestionClaim(now)] + [IngestionFinish(0, ask)] == steps;
  }

  /** The run from the empty store: a document is uploaded, ingested, and can then be extracted. */
  lemma {:induction false} FreshDocumentGetsParsed(
      p: Parser, u: Upload, maxBytes: nat, now: nat, ask: Endpoint<Vector>, entries: seq<Entry>, texts: seq<string>)
    requires WellOffered(Empty(), u, maxBytes)
    requires p(u.declared.value, u.content) == Ok(entries)
    requires AreTextsOf(texts, ChunkList(entries)) && TotalRight(texts, ask)
    ensures IsHistory(p, Empty(), FirstSteps(u, maxBytes, now, ask))
    ensures ExtractionRefusal(StoreAfter(p, Empty(), FirstSteps(u, maxBytes, now, ask)), u.tenant, 0).None?
  {
    var s := UploadedIsQueued(p, u, maxBytes, now);
    QueuedGetsParsed(p, s, u, now, ask, entries, texts);
    FirstStepsRun(p, u, maxBytes, now, ask, s);
  }

  // ----- Review items -----

  /** Item `r` was added: pending, about this job, with this payload and confidence. */
  predicate IsNewItem(
      before: map<nat, ReviewItem>, after: map<nat, ReviewItem>, r: nat, tenant: nat, source: ReviewSource,
      document: nat, job: nat, payload: Payload, confidence: real)
  {
    r !in before && r in after
    && after[r] == ReviewItem(tenant, source, document, job, payload, confidence, Pending, None, None)
  }

  /** Exactly the candidates below the threshold are added as items, and no other item changes. */
  ghost predicate RoutesExactly(
      before: map<nat, ReviewItem>, after: map<nat, ReviewItem>, tenant: nat, source: ReviewSource, document: nat,
      job: nat, candidates: seq<Candidate>, threshold: real)
  {
    && (forall r <- before :: r in after && after[r] == before[r])
    && (forall c <- candidates :: c.1 < threshold ==>
          exists r: nat :: IsNewItem(before, after, r, tenant, source, document, job, c.0, c.1))
    && (forall r <- after :: r !in before ==>
          exists c <- candidates ::
            c.1 < threshold && IsNewItem(before, after, r, tenant, source, document, job, c.0, c.1))
  }

  lemma {:induction false} RoutedRoutesExactly(
      before: map<nat, ReviewItem>, tenant: nat, source: ReviewSource, document: nat, job: nat,
      candidates: seq<Candidate>, threshold: real, firstId: nat)
    requires IdsFrom(before, firstId)
    ensures RoutesExactly(
              before, Routed(before, PendingItem(tenant, source, document, job), candidates, threshold, firstId),
              tenant, source, document, job, candidates, threshold)
  {
    var item := PendingItem(tenant, source, document, job);
    var after := Routed(before, item, candidates, threshold, firstId);
    forall r: nat ensures r in before ==> r in after && after[r] == before[r] {
      RoutedIsExact(before, item, candidates, threshold, firstId, r);
    }
    forall c | c in candidates && c.1 < threshold
      ensures exists r: nat :: IsNewItem(before, after, r, tenant, source, document, job, c.0, c.1)
    {
      var k: nat :| k < |candidates| && candidates[k] == c;
      RoutedIsExact(before, item, candidates, threshold, firstId, firstId + k);
      assert IsNewItem(before, after, firstId + k, tenant, source, document, job, c.0, c.1);
    }
    forall r | r in after && r !in before
      ensures exists c <- candidates ::
                c.1 < threshold && IsNewItem(before, after, r, tenant, source, document, job, c.0, c.1)
    {
      RoutedIsExact(before, item, candidates, threshold, firstId, r);
      var c := candidates[r - firstId];
      assert c in candidates && IsNewItem(before, after, r, tenant, source, document, job, c.0, c.1);
    }
  }

  /** The candidates of an extraction are its obligations and its terms, each with its confidence. */
  lemma {:induction false} ExtractionOffersAll(e: ObligationExtraction, payload: Payload, confidence: real)
    ensures (payload, confidence) in ExtractionCandidates(e) <==>
            || (exists o <- e.obligations :: payload == ObligationItem(o) && confidence == o.confidence)
            || (exists x <- e.definedTerms :: payload == TermItem(x) && confidence == x.confidence)
  {
    var n, all := |e.obligations|, ExtractionCandidates(e);
    if o :| o in e.obligations && payload == ObligationItem(o) && confidence == o.confidence {
      var k :| 0 <= k < n && e.obligations[k] == o;
      assert all[k] == (payload, confidence);
    }
    if x :| x in e.definedTerms && payload == TermItem(x) && confidence == x.confidence {
      var k :| 0 <= k < |e.definedTerms| && e.definedTerms[k] == x;
      assert all[n + k] == (payload, confidence);
    }
    if (payload, confidence) in all {
      var k :| 0 <= k < |all| && all[k] == (payload, confidence);
      if k < n {
        assert e.obligations[k] in e.obligations;
      } else {
        assert e.definedTerms[k - n] in e.definedTerms;
      }
    }
  }

  /** An impact of this entry, as it is shown for review. */
  predicate IsImpactOf(entry: ReportEntry, payload: Payload, confidence: real) {
    exists x <- entry.impacts :: payload == ImpactItem(x.0, entry.change, entry.explanation) && confidence == x.1
  }

  /** The candidates of a report are its impacts, each with the change and explanation of its entry. */
  lemma {:induction false} ReportOffersAll(report: seq<ReportEntry>, payload: Payload, confidence: real)
    ensures (payload, confidence) in ImpactCandidates(report) <==>
            exists entry <- report :: IsImpactOf(entry, payload, confidence)
  {
    if report != [] {
      var init, last := report[..|report| - 1], report[|report| - 1];
      ReportOffersAll(init, payload, confidence);
      assert report == init + [last];
      EntryOffersAll(last, payload, confidence);
    }
  }

  function EntryCandidates(entry: ReportEntry): seq<Candidate> {
    seq(|entry.impacts|, i requires 0 <= i < |entry.impacts| =>
      (ImpactItem(entry.impacts[i].0, entry.change, entry.explanation), entry.impacts[i].1))
  }

  lemma {:induction false} EntryOffersAll(entry: ReportEntry, payload: Payload, confidence: real)
    ensures (payload, confidence) in EntryCandidates(entry) <==> IsImpactOf(entry, payload, confidence)
  {
    var all := EntryCandidates(entry);
    if IsImpactOf(entry, payload, confidence) {
      var x :| x in entry.impacts && payload == ImpactItem(x.0, entry.change, entry.explanation) && confidence == x.1;
      var k :| 0 <= k < |entry.impacts| && entry.impacts[k] == x;
      assert all[k] == (payload, confidence);
    }
    if (payload, confidence) in all {
      var k :| 0 <= k < |all| && all[k] == (payload, confidence);
      assert entry.impacts[k] in entry.impacts;
    }
  }

  /** A finished extraction stores the gated result and offers all of it for review, or fails with the error. */
  lemma {:induction false} ExtractionEnds(
      p: Parser, s: Store, j: nat, replies: seq<Reply>, threshold: real, firstId: nat)
    requires Coherent(p, s) && j in s.extractions && |replies| == CITATION_ATTEMPTS && IdsFrom(s.reviews, firstId)
    requires s.extractions[j].subject.document in s.texts
    ensures var t, subject := FinishExtraction(s, j, replies, threshold, firstId), s.extractions[j].subject;
            var outcome := Extracted(replies, s.texts[subject.document].text);
            && t.extractions.Keys == s.extractions.Keys
            && (forall i <- s.extractions :: i != j ==> t.extractions[i] == s.extractions[i])
            && t == s.(extractions := t.extractions, reviews := t.reviews)
            && match outcome
               case Err(error) => FailedWith(t.extractions[j], error) && t.reviews == s.reviews
               case Ok(result) =>
                 CompletedWith(t.extractions[j], result)
                 && RoutesExactly(s.reviews, t.reviews, subject.tenant, FromExtraction, subject.document, j,
                      ExtractionCandidates(result), threshold)
  {
    var subject := s.extractions[j].subject;
    assert RowsOk(s, j);
    var outcome := Extracted(replies, s.texts[subject.document].text);
    if outcome.Ok? {
      RoutedRoutesExactly(s.reviews, subject.tenant, FromExtraction, subject.document, j,
        ExtractionCandidates(outcome.value), threshold, firstId);
    }
  }

  lemma {:induction false} SettledReport(
      s: Store, j: nat, outcome: Result<seq<ReportEntry>, string>, threshold: real, firstId: nat)
    requires j in s.reports && IdsFrom(s.reviews, firstId)
    ensures var t, subject := SettleReport(s, j, outcome, threshold, firstId), s.reports[j].subject;
            && t.reports.Keys == s.reports.Keys && (forall i <- s.reports :: i != j ==> t.reports[i] == s.reports[i])
            && t == s.(reports := t.reports, reviews := t.reviews)
            && match outcome
               case Err(error) => FailedWith(t.reports[j], error) && t.reviews == s.reviews
               case Ok(report) =>
                 CompletedWith(t.reports[j], report)
                 && RoutesExactly(s.reviews, t.reviews, subject.tenant, FromReport, subject.base, j,
                      ImpactCandidates(report), threshold)
  {
    var subject := s.reports[j].subject;
    if outcome.Ok? {
      RoutedRoutesExactly(s.reviews, subject.tenant, FromReport, subject.base, j, ImpactCandidates(outcome.value),
        threshold, firstId);
    }
  }

  /** Likewise a finished report. */
  lemma {:induction false} ReportEnds(
      p: Parser, s: Store, j: nat, obligations: seq<Obligation>, explained: ExplainReply, o: Oracle, threshold: real,
      firstId: nat)
    requires Coherent(p, s) && j in s.reports && IdsFrom(s.reviews, firstId)
    requires s.reports[j].subject.base in s.texts && s.reports[j].subject.amended in s.texts
    ensures var t, subject := FinishReport(s, j, obligations, explained, o, threshold, firstId), s.reports[j].subject;
            var outcome :=
              ReportOf(s.texts[subject.base].text, s.texts[subject.amended].text, obligations, explained, o);
            && t.reports.Keys == s.reports.Keys && (forall i <- s.reports :: i != j ==> t.reports[i] == s.reports[i])
            && t == s.(reports := t.reports, reviews := t.reviews)
            && match outcome
               case Err(error) => FailedWith(t.reports[j], error) && t.reviews == s.reviews
               case Ok(report) =>
                 CompletedWith(t.reports[j], report)
                 && RoutesExactly(s.reviews, t.reviews, subject.tenant, FromReport, subject.base, j,
                      ImpactCandidates(report), threshold)
  {
    var subject := s.reports[j].subject;
    var outcome := ReportOf(s.texts[subject.base].text, s.texts[subject.amended].text, obligations, explained, o);
    SettledReport(s, j, outcome, threshold, firstId);
  }

  /** A resolution succeeds exactly for the tenant's own pending items, and sets disposition, correction and time. */
  lemma {:induction false} ResolveIsExact(
      s: Store, tenant: nat, r: nat, disposition: Disposition, corrected: Option<string>, now: nat)
    ensures ResolveRefusal(s, tenant, r).None? <==>
            r in s.reviews && s.reviews[r].tenant == tenant && s.reviews[r].status == Pending
    ensures var t := Resolve(s, tenant, r, disposition, corrected, now);
            && t == s.(reviews := t.reviews) && t.reviews.Keys == s.reviews.Keys
            && (forall q <- s.reviews :: q != r ==> t.reviews[q] == s.reviews[q])
            && (ResolveRefusal(s, tenant, r).None? ==>
                  && t.reviews[r].status == disposition && t.reviews[r].corrected == corrected
                  && t.reviews[r].resolvedAt == Some(now) && t.reviews[r].payload == s.reviews[r].payload
                  && t.reviews[r].job == s.reviews[r].job && t.reviews[r].document == s.reviews[r].document
                  && t.reviews[r].source == s.reviews[r].source && t.reviews[r].tenant == tenant
                  && t.reviews[r].confidence == s.reviews[r].confidence)
  {
  }
}
