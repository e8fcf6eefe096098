/** The service functions as they run: statements over the tables, each proved to be one step of the store. */
module Services {
  import opened Wrappers
  import opened Parsing
  import opened Chunking
  import opened ClauseChunks
  import opened Embedding
  import opened Jobs
  import opened Extraction
  import opened Report
  import opened Store
  import S = Store
  import opened StoreLaws

  class Database {
    var docs: map<nat, Document>
    var files: set<(nat, Content)>
    var texts: map<nat, TextRow>
    var chunks: set<ChunkRow>
    var vectors: map<nat, seq<Vector>>
    var reviews: map<nat, ReviewItem>
    const ingestions: JobTable<DocumentJob, nat>
    const extractions: JobTable<DocumentJob, ObligationExtraction>
    const reports: JobTable<ReportJob, seq<ReportEntry>>

    ghost predicate Separate() {
      (ingestions as object) != extractions && (ingestions as object) != reports && (extractions as object) != reports
    }

    ghost function View(): Store
      reads this, ingestions, extractions, reports
    {
      Store(docs, files, texts, chunks, vectors, ingestions.rows, extractions.rows, reports.rows, reviews)
    }

    constructor ()
      ensures Separate() && View() == Empty()
      ensures fresh(ingestions) && fresh(extractions) && fresh(reports)
    {
      docs, files, texts, chunks, vectors, reviews := map[], {}, map[], {}, map[], map[];
      ingestions := new JobTable();
      extractions := new JobTable();
      reports := new JobTable();
    }

    // ----- Documents -----

    method UploadDocument(u: Upload, maxBytes: nat, id: nat) returns (r: Result<nat, UploadError>)
      requires id !in docs && forall a: nat, b: nat :: Unlike(View(), a, b)
      modifies this
      ensures View() == S.UploadDocument(old(View()), u, maxBytes, id)
      ensures r == match UploadRefusal(old(View()), u, maxBytes) case Some(error) => Err(error) case None => Ok(id)
    {
      if u.declared.None? {
        return Err(MimeNotAllowed);
      }
      if |u.content| > maxBytes {
        return Err(TooLarge);
      }
      if u.sniffed != u.declared {
        return Err(MimeNotAllowed);
      }
      if u.amends.Some? && !Owns(docs, u.tenant, u.amends.value) {
        return Err(ParentNotFound);
      }
      if exists other <- docs :: IsTwin(docs, u.tenant, u.content, other) {
        var existing :| existing in docs && IsTwin(docs, u.tenant, u.content, existing);
        assert Unlike(View(), existing, Twin(docs, u.tenant, u.content).value);
        return Err(AlreadyExists(existing));
      }
      files := files + {(u.tenant, u.content)};
      docs := docs[id := Document(u.tenant, u.declared.value, u.content, u.amends, DocUploaded)];
      return Ok(id);
    }

    /** The cascade, in the order of the code. */
    method Sweep(id: nat)
      requires Separate()
      modifies this, ingestions, extractions, reports
      ensures View() == Swept(old(View()), id)
    {
      var reportIds := ReportsNaming(reports.rows, id);
      ghost var before := reviews;
      reports.Remove(reportIds);
      reviews := map r <- reviews | reviews[r].job !in reportIds :: reviews[r];
      reviews := map r <- reviews | reviews[r].document != id :: reviews[r];
      assert reviews == ReviewsWithout(before, reportIds, id);
      chunks := ChunksWithout(chunks, id);
      vectors := vectors - {id};
      texts := texts - {id};
      extractions.Remove(JobsOf(extractions.rows, id));
      ingestions.Remove(JobsOf(ingestions.rows, id));
    }

    /** The row goes before the file. In a coherent store the foreign keys never object. */
    method DeleteDocument(ghost p: Parser, tenant: nat, id: nat) returns (r: Result<(), DeleteError>)
      requires Separate() && Coherent(p, View())
      modifies this, ingestions, extractions, reports
      ensures View() == S.DeleteDocument(old(View()), tenant, id)
      ensures r == match DeleteRefusal(old(View()), tenant, id) case Some(error) => Err(error) case None => Ok(())
    {
      DeletableIsUnreferenced(p, View(), tenant, id);
      if !Owns(docs, tenant, id) {
        return Err(NoSuchDocument);
      }
      if Amended(docs, id) {
        return Err(HasAmendments);
      }
      var content := docs[id].content;
      Sweep(id);
      docs := docs - {id};
      files := files - {(tenant, content)};
      return Ok(());
    }

    // ----- Enqueue -----

    method EnqueueIngestion(tenant: nat, document: nat, id: nat, now: nat) returns (r: Result<nat, EnqueueError>)
      requires Separate() && id !in ingestions.rows
      modifies ingestions
      ensures View() == S.EnqueueIngestion(old(View()), tenant, document, id, now)
      ensures r == match IngestionRefusal(old(View()), tenant, document)
                   case Some(error) => Err(error)
                   case None => Ok(id)
    {
      if !Owns(docs, tenant, document) {
        return Err(DocumentNotFound(document));
      }
      var active := ingestions.FindLatest(ActiveOf(ingestions.rows, document));
      if active.Some? {
        return Err(Conflict(active.value));
      }
      ingestions.Create(id, DocumentJob(tenant, document), now);
      return Ok(id);
    }

    method EnqueueExtraction(tenant: nat, document: nat, id: nat, now: nat) returns (r: Result<nat, EnqueueError>)
      requires Separate() && id !in extractions.rows
      modifies extractions
      ensures View() == S.EnqueueExtraction(old(View()), tenant, document, id, now)
      ensures r == match ExtractionRefusal(old(View()), tenant, document)
                   case Some(error) => Err(error)
                   case None => Ok(id)
    {
      if !Owns(docs, tenant, document) {
        return Err(DocumentNotFound(document));
      }
      if docs[document].status != DocParsed {
        var latest := ingestions.FindLatest(JobsOf(ingestions.rows, document));
        return Err(NotParsed(latest));
      }
      var active := extractions.FindLatest(ActiveOf(extractions.rows, document));
      if active.Some? {
        return Err(Conflict(active.value));
      }
      extractions.Create(id, DocumentJob(tenant, document), now);
      return Ok(id);
    }

    /** The first prerequisite one version lacks. */
    method FindGap(document: nat) returns (gap: Option<EnqueueError>)
      requires document in docs
      ensures gap == Gap(View(), document)
    {
      if docs[document].status != DocParsed {
        var latest := ingestions.FindLatest(JobsOf(ingestions.rows, document));
        return Some(PrerequisiteMissing(document, NeedsIngestion, latest));
      }
      var latest := extractions.FindLatest(JobsOf(extractions.rows, document));
      LatestIsNewest(extractions.rows, JobsOf(extractions.rows, document));
      if latest.None? || extractions.rows[latest.value].status != Completed {
        return Some(PrerequisiteMissing(document, NeedsExtraction, latest));
      }
      return None;
    }

    method EnqueueReport(tenant: nat, base: nat, amended: nat, id: nat, now: nat) returns (r: Result<nat, EnqueueError>)
      requires Separate() && id !in reports.rows
      modifies reports
      ensures View() == S.EnqueueReport(old(View()), tenant, base, amended, id, now)
      ensures r == match ReportRefusal(old(View()), tenant, base, amended)
                   case Some(error) => Err(error)
                   case None => Ok(id)
    {
      if !Owns(docs, tenant, base) {
        return Err(DocumentNotFound(base));
      }
      if !Owns(docs, tenant, amended) {
        return Err(DocumentNotFound(amended));
      }
      if docs[amended].amends != Some(base) {
        return Err(AmendmentMismatch(base, amended));
      }
      var versions := [base, amended];
      for i := 0 to 2
        invariant View() == old(View())
        invariant forall k :: 0 <= k < i ==> Gap(View(), versions[k]).None?
      {
        var gap := FindGap(versions[i]);
        if gap.Some? {
          assert i == 1 ==> Gap(View(), versions[0]).None?;
          return Err(gap.value);
        }
      }
      assert Gap(View(), versions[0]).None? && Gap(View(), versions[1]).None?;
      reports.Create(id, ReportJob(tenant, base, amended), now);
      return Ok(id);
    }

    // ----- Review -----

    /** Persists the candidates strictly below the threshold as pending items. */
    method RouteForReview(item: ReviewItem, candidates: seq<Candidate>, threshold: real, firstId: nat)
      modifies this`reviews
      ensures reviews == Routed(old(reviews), item, candidates, threshold, firstId)
    {
      for i := 0 to |candidates|
        invariant reviews == Routed(old(reviews), item, candidates[..i], threshold, firstId)
      {
        assert candidates[..i + 1][..i] == candidates[..i];
        if candidates[i].1 < threshold {
          reviews := reviews[firstId + i := item.(payload := candidates[i].0, confidence := candidates[i].1)];
        }
      }
      assert candidates[..|candidates|] == candidates;
    }

    method ResolveReviewItem(tenant: nat, item: nat, disposition: Disposition, corrected: Option<string>, now: nat)
      returns (r: Result<ReviewItem, ResolveError>)
      modifies this`reviews
      ensures View() == Resolve(old(View()), tenant, item, disposition, corrected, now)
      ensures r == match ResolveRefusal(old(View()), tenant, item)
                   case Some(error) => Err(error)
                   case None => Ok(View().reviews[item])
    {
      if item !in reviews || reviews[item].tenant != tenant {
        return Err(ItemNotFound);
      }
      if reviews[item].status != Pending {
        return Err(AlreadyResolved);
      }
      var resolved := reviews[item].(status := disposition, corrected := corrected, resolvedAt := Some(now));
      reviews := reviews[item := resolved];
      return Ok(resolved);
    }

    // ----- Worker handlers -----

    /** Deletes the document's rows, then inserts one per chunk in order; refused unless every chunk has a vector. */
    method ReplaceChunks(document: nat, list: seq<Chunk>, embeddings: seq<Vector>) returns (r: Result<(), string>)
      modifies this`chunks, this`vectors
      ensures r.Ok? <==> |embeddings| == |list|
      ensures r.Ok? ==>
                && chunks == ChunksWithout(old(chunks), document) + RowsOf(document, list)
                && vectors == old(vectors)[document := embeddings]
      ensures r.Err? ==> chunks == old(chunks) && vectors == old(vectors)
    {
      if |list| != |embeddings| {
        return Err("every chunk needs exactly one embedding vector");
      }
      chunks := ChunksWithout(chunks, document);
      for ordinal := 0 to |list|
        invariant chunks == ChunksWithout(old(chunks), document) + RowsOf(document, list[..ordinal])
        invariant vectors == old(vectors)
      {
        OneMoreRow(document, list, ordinal);
        chunks := chunks + {ChunkRow(document, ordinal, list[ordinal])};
      }
      assert list[..|list|] == list;
      vectors := vectors[document := embeddings];
      return Ok(());
    }

    /** Reads, parses, chunks and embeds one document. */
    method Ingest(p: Parser, id: nat, ask: Endpoint<Vector>)
      returns (r: Result<(seq<Entry>, seq<Vector>), string>, parsed: ParsedDocument, list: seq<Chunk>)
      requires id in docs
      ensures r == IngestionOutcome(p, View(), id, ask)
      ensures r.Ok? ==> parsed == Built(r.value.0) && list == ChunkList(r.value.0)
    {
      parsed, list := ParsedDocument("", [], []), [];
      var d := docs[id];
      if (d.tenant, d.content) !in files {
        return Err("stored file missing"), parsed, list;
      }
      var entries := p(d.mime, d.content);
      if entries.Err? {
        return Err(entries.error), parsed, list;
      }
      parsed := Build(entries.value);
      BuiltBlocksWithin(entries.value);
      list := ChunkDocument(parsed);
      var embedded := EmbedChunkTexts(ChunkTexts(list), ask);
      if embedded.Err? {
        return Err(embedded.error), parsed, list;
      }
      return Ok((entries.value, embedded.value)), parsed, list;
    }

    /** The claimed job: its document is ingested, or the job fails, or a wrong total of vectors rolls all back. */
    method ProcessIngestion(p: Parser, j: nat, ask: Endpoint<Vector>) returns (r: Result<bool, string>)
      requires Separate() && j in ingestions.rows
      modifies this, ingestions
      ensures View() == FinishIngestion(p, old(View()), j, ask)
      ensures r.Err? <==> FinishRaises(p, old(View()), j, ask)
      ensures r.Ok? ==> r.value
    {
      var tenant, id := ingestions.rows[j].subject.tenant, ingestions.rows[j].subject.document;
      if !Owns(docs, tenant, id) {
        ingestions.MarkFailed(j, "document vanished after enqueue");
        return Ok(true);
      }
      var outcome, parsed, list := Ingest(p, id, ask);
      if outcome.Err? {
        ingestions.MarkFailed(j, outcome.error);
        docs := SetStatus(docs, id, DocFailed);
        return Ok(true);
      }
      var replaced := ReplaceChunks(id, list, outcome.value.1);
      if replaced.Err? {
        return Err(replaced.error);
      }
      texts := texts[id := TextRow(parsed.text, parsed.pageMap)];
      ingestions.MarkCompleted(j, |list|);
      docs := SetStatus(docs, id, DocParsed);
      return Ok(true);
    }

    /** One pass of the ingestion handler. It raises only on a wrong total of vectors, and then rolls the text back. */
    method RunNextIngestionJob(p: Parser, now: nat, ask: Endpoint<Vector>) returns (r: Result<bool, string>)
      requires Separate()
      modifies this, ingestions
      ensures View() == HandleIngestion(p, old(View()), now, ask)
      ensures r.Err? <==> IngestionRaises(p, old(View()), now, ask)
      ensures r.Ok? ==> r.value == AnyRunnable(old(ingestions.rows), now)
    {
      NextIdIsOldest(ingestions.rows, now);
      var claimed := ingestions.ClaimNext(now);
      if claimed.None? {
        return Ok(false);
      }
      var j := claimed.value;
      var tenant, id := ingestions.rows[j].subject.tenant, ingestions.rows[j].subject.document;
      if ingestions.rows[j].status == Jobs.Failed {
        if Owns(docs, tenant, id) {
          docs := SetStatus(docs, id, DocFailed);
        }
        return Ok(true);
      }
      r := ProcessIngestion(p, j, ask);
    }

    method RunNextExtractionJob(now: nat, replies: seq<Reply>, threshold: real, firstId: nat) returns (ran: bool)
      requires Separate() && |replies| == CITATION_ATTEMPTS
      modifies this`reviews, extractions
      ensures View() == HandleExtraction(old(View()), now, replies, threshold, firstId)
      ensures ran == AnyRunnable(old(extractions.rows), now)
    {
      NextIdIsOldest(extractions.rows, now);
      var claimed := extractions.ClaimNext(now);
      if claimed.None? {
        return false;
      }
      var j := claimed.value;
      var subject := extractions.rows[j].subject;
      if extractions.rows[j].status == Jobs.Failed {
        return true;
      }
      var outcome: Result<ObligationExtraction, string>;
      if !Owns(docs, subject.tenant, subject.document) {
        outcome := Err("document vanished after enqueue");
      } else if subject.document !in texts {
        outcome := Err(NO_TEXT);
      } else {
        outcome := ExtractObligations(replies, texts[subject.document].text);
      }
      if outcome.Err? {
        extractions.MarkFailed(j, outcome.error);
        return true;
      }
      extractions.MarkCompleted(j, outcome.value);
      var item := PendingItem(subject.tenant, FromExtraction, subject.document, j);
      RouteForReview(item, ExtractionCandidates(outcome.value), threshold, firstId);
      return true;
    }

    /** The base version's obligations, off its latest extraction if that one completed. */
    method FindBaseObligations(document: nat) returns (obligations: seq<Obligation>)
      ensures obligations == BaseObligations(extractions.rows, document)
    {
      var latest := extractions.FindLatest(JobsOf(extractions.rows, document));
      LatestIsNewest(extractions.rows, JobsOf(extractions.rows, document));
      if latest.None? {
        return [];
      }
      var job := extractions.rows[latest.value];
      if job.status != Completed || job.result.None? {
        return [];
      }
      return job.result.value.obligations;
    }

    /** The claimed job: its report is built and its low-confidence impacts routed, or the job fails. */
    method ProcessReport(j: nat, explained: ExplainReply, o: Oracle, threshold: real, firstId: nat)
      requires Separate() && j in reports.rows
      modifies this`reviews, reports
      ensures var obligations := BaseObligations(old(extractions.rows), old(reports.rows)[j].subject.base);
              View() == FinishReport(old(View()), j, obligations, explained, o, threshold, firstId)
    {
      var subject := reports.rows[j].subject;
      var outcome: Result<seq<ReportEntry>, string> := Err(NO_TEXT);
      if subject.base in texts && subject.amended in texts {
        var obligations := FindBaseObligations(subject.base);
        outcome := BuildReport(texts[subject.base].text, texts[subject.amended].text, obligations, explained, o);
      }
      if outcome.Err? {
        reports.MarkFailed(j, outcome.error);
        return;
      }
      reports.MarkCompleted(j, outcome.value);
      var item := PendingItem(subject.tenant, FromReport, subject.base, j);
      RouteForReview(item, ImpactCandidates(outcome.value), threshold, firstId);
    }

    method RunNextReportJob(
        now: nat, explained: ExplainReply, o: Oracle, threshold: real, firstId: nat) returns (ran: bool)
      requires Separate()
      modifies this`reviews, reports
      ensures View() == HandleReport(old(View()), now, explained, o, threshold, firstId)
      ensures ran == AnyRunnable(old(reports.rows), now)
    {
      NextIdIsOldest(reports.rows, now);
      var claimed := reports.ClaimNext(now);
      if claimed.None? {
        return false;
      }
      var j := claimed.value;
      if reports.rows[j].status != Jobs.Failed {
        ProcessReport(j, explained, o, threshold, firstId);
      }
      return true;
    }
  }

  lemma {:induction false} OneMoreRow(document: nat, list: seq<Chunk>, n: nat)
    requires n < |list|
    ensures RowsOf(document, list[..n + 1]) == RowsOf(document, list[..n]) + {ChunkRow(document, n, list[n])}
  {
  }

  // ----- A handler is a claim followed by a finish -----

  ghost function HandleIngestion(p: Parser, s: Store, now: nat, ask: Endpoint<Vector>): Store {
    var t, next := ClaimIngestion(s, now), NextId(s.ingestions, now);
    if next.None? || next.value !in t.ingestions || t.ingestions[next.value].status == Jobs.Failed then t
    else FinishIngestion(p, t, next.value, ask)
  }

  ghost predicate FinishRaises(p: Parser, s: Store, j: nat, ask: Endpoint<Vector>)
    requires j in s.ingestions
  {
    var subject := s.ingestions[j].subject;
    Owns(s.docs, subject.tenant, subject.document) && WrongTotal(IngestionOutcome(p, s, subject.document, ask))
  }

  /** A job was claimed to run, and the total of its vectors is wrong. */
  ghost predicate IngestionRaises(p: Parser, s: Store, now: nat, ask: Endpoint<Vector>) {
    var t, next := ClaimIngestion(s, now), NextId(s.ingestions, now);
    && next.Some? && next.value in t.ingestions && t.ingestions[next.value].status != Jobs.Failed
    && FinishRaises(p, t, next.value, ask)
  }

  ghost function HandleExtraction(s: Store, now: nat, replies: seq<Reply>, threshold: real, firstId: nat): Store
    requires |replies| == CITATION_ATTEMPTS
  {
    var t, next := ClaimExtraction(s, now), NextId(s.extractions, now);
    if next.None? || next.value !in t.extractions || t.extractions[next.value].status == Jobs.Failed then t
    else FinishExtraction(t, next.value, replies, threshold, firstId)
  }

  ghost function HandleReport(
      s: Store, now: nat, explained: ExplainReply, o: Oracle, threshold: real, firstId: nat): Store {
    var t, next := ClaimReport(s, now), NextId(s.reports, now);
    if next.None? || next.value !in t.reports || t.reports[next.value].status == Jobs.Failed then t
    else
      var obligations := BaseObligations(t.extractions, t.reports[next.value].subject.base);
      FinishReport(t, next.value, obligations, explained, o, threshold, firstId)
  }

  lemma {:induction false} HandleIngestionKeeps(p: Parser, s: Store, now: nat, ask: Endpoint<Vector>)
    requires Coherent(p, s)
    ensures Coherent(p, HandleIngestion(p, s, now, ask))
  {
    var t, next := ClaimIngestion(s, now), NextId(s.ingestions, now);
    ClaimsKeep(p, s, now);
    if next.Some? && next.value in t.ingestions {
      FinishIngestionKeeps(p, t, next.value, ask);
    }
  }

  lemma {:induction false} HandleExtractionKeeps(
      p: Parser, s: Store, now: nat, replies: seq<Reply>, threshold: real, firstId: nat)
    requires Coherent(p, s) && |replies| == CITATION_ATTEMPTS && IdsFrom(s.reviews, firstId)
    ensures Coherent(p, HandleExtraction(s, now, replies, threshold, firstId))
  {
    var t, next := ClaimExtraction(s, now), NextId(s.extractions, now);
    ClaimsKeep(p, s, now);
    if next.Some? && next.value in t.extractions {
      FinishExtractionKeeps(p, t, next.value, replies, threshold, firstId);
    }
  }

  lemma {:induction false} HandleReportKeeps(
      p: Parser, s: Store, now: nat, explained: ExplainReply, o: Oracle, threshold: real, firstId: nat)
    requires Coherent(p, s) && IdsFrom(s.reviews, firstId)
    ensures Coherent(p, HandleReport(s, now, explained, o, threshold, firstId))
  {
    var t, next := ClaimReport(s, now), NextId(s.reports, now);
    ClaimsKeep(p, s, now);
    if next.Some? && next.value in t.reports {
      var obligations := BaseObligations(t.extractions, t.reports[next.value].subject.base);
      BaseObligationsAreReadable(p, t, t.reports[next.value].subject.base);
      FinishReportKeeps(p, t, next.value, obligations, explained, o, threshold, firstId);
    }
  }
}
