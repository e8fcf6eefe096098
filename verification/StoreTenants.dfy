/** How far the steps of one tenant reach, and what its requests depend on. */
module StoreTenants {
  import opened Wrappers
  import opened Parsing
  import opened Embedding
  import opened Jobs
  import opened Extraction
  import opened Report
  import opened Store
  import opened StoreLaws

  // ----- What belongs to one tenant -----

  /** The tenant's document `id` is in `t` what it is in `s`, with text, chunks and vectors. */
  ghost predicate KeepsDocumentOf(s: Store, t: Store, tenant: nat, id: nat) {
    Owns(s.docs, tenant, id) ==>
      && id in t.docs && t.docs[id] == s.docs[id]
      && (id in s.texts <==> id in t.texts) && (id in s.texts ==> t.texts[id] == s.texts[id])
      && (id in s.vectors <==> id in t.vectors) && (id in s.vectors ==> t.vectors[id] == s.vectors[id])
      && ChunksFor(t.chunks, id) == ChunksFor(s.chunks, id)
  }

  /** The tenant's jobs and review items with the id are in `t` what they are in `s`. */
  ghost predicate KeepsRowsOf(s: Store, t: Store, tenant: nat, j: nat) {
    && (j in s.ingestions && s.ingestions[j].subject.tenant == tenant ==>
          j in t.ingestions && t.ingestions[j] == s.ingestions[j])
    && (j in s.extractions && s.extractions[j].subject.tenant == tenant ==>
          j in t.extractions && t.extractions[j] == s.extractions[j])
    && (j in s.reports && s.reports[j].subject.tenant == tenant ==> j in t.reports && t.reports[j] == s.reports[j])
    && (j in s.reviews && s.reviews[j].tenant == tenant ==> j in t.reviews && t.reviews[j] == s.reviews[j])
  }

  /** Nothing of the tenant with the id differs, whichever of the two stores comes first. */
  ghost predicate SameAt(s: Store, t: Store, tenant: nat, a: nat) {
    && KeepsDocumentOf(s, t, tenant, a) && KeepsDocumentOf(t, s, tenant, a)
    && KeepsRowsOf(s, t, tenant, a) && KeepsRowsOf(t, s, tenant, a)
  }

  predicate SameFile(s: Store, t: Store, tenant: nat, content: Content) {
    (tenant, content) in s.files <==> (tenant, content) in t.files
  }

  /** Everything of the tenant in one store is the same in the other. */
  ghost predicate SameFor(s: Store, t: Store, tenant: nat) {
    && (forall content: Content :: SameFile(s, t, tenant, content))
    && (forall a: nat :: SameAt(s, t, tenant, a))
  }

  /** The tenant who makes a request; workers act for nobody. */
  function Requester(e: Step): Option<nat> {
    match e
    case Uploading(u, _, _) => Some(u.tenant)
    case Deleting(tenant, _) => Some(tenant)
    case RequestIngestion(tenant, _, _, _) => Some(tenant)
    case RequestExtraction(tenant, _, _, _) => Some(tenant)
    case RequestReport(tenant, _, _, _, _) => Some(tenant)
    case Resolving(tenant, _, _, _, _) => Some(tenant)
    case _ => None
  }

  lemma {:induction false} DeleteSparesDocument(p: Parser, s: Store, tenant: nat, id: nat, other: nat, a: nat)
    requires Coherent(p, s) && other != tenant
    ensures var t := DeleteDocument(s, tenant, id);
            KeepsDocumentOf(s, t, other, a) && KeepsDocumentOf(t, s, other, a)
  {
    var t := DeleteDocument(s, tenant, id);
    if a != id {
      assert ChunksFor(t.chunks, a) == ChunksFor(s.chunks, a);
    }
  }

  lemma {:induction false} DeleteSparesRows(p: Parser, s: Store, tenant: nat, id: nat, other: nat, j: nat)
    requires Coherent(p, s) && other != tenant
    ensures var t := DeleteDocument(s, tenant, id);
            KeepsRowsOf(s, t, other, j) && KeepsRowsOf(t, s, other, j)
  {
    assert RowsOk(s, j);
    if j in s.reviews {
      assert RowsOk(s, s.reviews[j].job);
    }
  }

  lemma {:induction false} SameTablesSpare(s: Store, t: Store, other: nat, a: nat)
    requires s.ingestions == t.ingestions && s.extractions == t.extractions && s.reports == t.reports
    requires s.reviews == t.reviews
    ensures KeepsRowsOf(s, t, other, a) && KeepsRowsOf(t, s, other, a)
  {
  }

  lemma {:induction false} SameDocumentsSpare(s: Store, t: Store, other: nat, a: nat)
    requires s.docs == t.docs && SameTextTables(s, t)
    ensures KeepsDocumentOf(s, t, other, a) && KeepsDocumentOf(t, s, other, a)
  {
  }

  lemma {:induction false} AddedDocumentSpares(
      s: Store, id: nat, d: Document, files: set<(nat, Content)>, other: nat, a: nat)
    requires id !in s.docs && other != d.tenant
    ensures SameAt(s, s.(docs := s.docs[id := d], files := files), other, a)
  {
    SameTablesSpare(s, s.(docs := s.docs[id := d], files := files), other, a);
  }

  lemma {:induction false} UploadSpares(s: Store, u: Upload, maxBytes: nat, id: nat, other: nat, a: nat)
    requires id !in s.docs && other != u.tenant
    ensures SameAt(s, UploadDocument(s, u, maxBytes, id), other, a)
  {
    var t := UploadDocument(s, u, maxBytes, id);
    if UploadRefusal(s, u, maxBytes).None? {
      AddedDocumentSpares(s, id, t.docs[id], t.files, other, a);
    }
  }

  lemma {:induction false} EnqueueIngestionSpares(
      s: Store, tenant: nat, document: nat, id: nat, now: nat, other: nat, a: nat)
    requires id !in s.ingestions && other != tenant
    ensures SameAt(s, EnqueueIngestion(s, tenant, document, id, now), other, a)
  {
    SameDocumentsSpare(s, EnqueueIngestion(s, tenant, document, id, now), other, a);
  }

  lemma {:induction false} EnqueueExtractionSpares(
      s: Store, tenant: nat, document: nat, id: nat, now: nat, other: nat, a: nat)
    requires id !in s.extractions && other != tenant
    ensures SameAt(s, EnqueueExtraction(s, tenant, document, id, now), other, a)
  {
    SameDocumentsSpare(s, EnqueueExtraction(s, tenant, document, id, now), other, a);
  }

  lemma {:induction false} EnqueueReportSpares(
      s: Store, tenant: nat, base: nat, amended: nat, id: nat, now: nat, other: nat, a: nat)
    requires id !in s.reports && other != tenant
    ensures SameAt(s, EnqueueReport(s, tenant, base, amended, id, now), other, a)
  {
    SameDocumentsSpare(s, EnqueueReport(s, tenant, base, amended, id, now), other, a);
  }

  lemma {:induction false} ChangedReviewSpares(s: Store, r: nat, item: ReviewItem, other: nat, a: nat)
    requires r in s.reviews && s.reviews[r].tenant == item.tenant != other
    ensures SameAt(s, s.(reviews := s.reviews[r := item]), other, a)
  {
    SameDocumentsSpare(s, s.(reviews := s.reviews[r := item]), other, a);
  }

  lemma {:induction false} ResolveSpares(
      s: Store, tenant: nat, item: nat, disposition: Disposition, corrected: Option<string>, now: nat,
      other: nat, a: nat)
    requires other != tenant
    ensures SameAt(s, Resolve(s, tenant, item, disposition, corrected, now), other, a)
  {
    if ResolveRefusal(s, tenant, item).None? {
      ChangedReviewSpares(s, item, Resolve(s, tenant, item, disposition, corrected, now).reviews[item], other, a);
    }
  }

  lemma {:induction false} RequestSparesAt(p: Parser, s: Store, e: Step, other: nat, a: nat)
    requires Coherent(p, s) && Possible(s, e) && Requester(e).Some? && Requester(e) != Some(other)
    ensures SameAt(s, Do(p, s, e), other, a)
  {
    match e
    case Uploading(u, maxBytes, id) => UploadSpares(s, u, maxBytes, id, other, a);
    case Deleting(tenant, id) =>
      DeleteSparesDocument(p, s, tenant, id, other, a);
      DeleteSparesRows(p, s, tenant, id, other, a);
    case RequestIngestion(tenant, document, id, now) =>
      EnqueueIngestionSpares(s, tenant, document, id, now, other, a);
    case RequestExtraction(tenant, document, id, now) =>
      EnqueueExtractionSpares(s, tenant, document, id, now, other, a);
    case RequestReport(tenant, base, amended, id, now) =>
      EnqueueReportSpares(s, tenant, base, amended, id, now, other, a);
    case Resolving(tenant, item, disposition, corrected, now) =>
      ResolveSpares(s, tenant, item, disposition, corrected, now, other, a);
  }

  // ----- What a worker does concerns the job's tenant only -----

  /** The tenant a step acts for: who requests it, or whose job is claimed or finished; a claim may find no job. */
  ghost function ActsFor(s: Store, e: Step): Option<nat>
    requires Possible(s, e)
  {
    match e
    case IngestionClaim(now) =>
      (match NextId(s.ingestions, now)
       case None => None
       case Some(j) => if j in s.ingestions then Some(s.ingestions[j].subject.tenant) else None)
    case ExtractionClaim(now) =>
      (match NextId(s.extractions, now)
       case None => None
       case Some(j) => if j in s.extractions then Some(s.extractions[j].subject.tenant) else None)
    case ReportClaim(now) =>
      (match NextId(s.reports, now)
       case None => None
       case Some(j) => if j in s.reports then Some(s.reports[j].subject.tenant) else None)
    case IngestionFinish(j, _) => Some(s.ingestions[j].subject.tenant)
    case ExtractionFinish(j, _, _, _) => Some(s.extractions[j].subject.tenant)
    case ReportFinish(j, _, _, _, _, _) => Some(s.reports[j].subject.tenant)
    case _ => Requester(e)
  }

  lemma {:induction false} SameAtChains(s: Store, t: Store, u: Store, other: nat, a: nat)
    requires SameAt(s, t, other, a) && SameAt(t, u, other, a)
    ensures SameAt(s, u, other, a)
  {
  }

  lemma {:induction false} IngestionRowSpares(
      s: Store, j: nat, job: Job<DocumentJob, nat>, other: nat, a: nat)
    requires j in s.ingestions && job.subject == s.ingestions[j].subject && job.subject.tenant != other
    ensures SameAt(s, s.(ingestions := s.ingestions[j := job]), other, a)
  {
    SameDocumentsSpare(s, s.(ingestions := s.ingestions[j := job]), other, a);
  }

  lemma {:induction false} ExtractionRowSpares(
      s: Store, j: nat, job: Job<DocumentJob, ObligationExtraction>, other: nat, a: nat)
    requires j in s.extractions && job.subject == s.extractions[j].subject && job.subject.tenant != other
    ensures SameAt(s, s.(extractions := s.extractions[j := job]), other, a)
  {
    SameDocumentsSpare(s, s.(extractions := s.extractions[j := job]), other, a);
  }

  lemma {:induction false} ReportRowSpares(
      s: Store, j: nat, job: Job<ReportJob, seq<ReportEntry>>, other: nat, a: nat)
    requires j in s.reports && job.subject == s.reports[j].subject && job.subject.tenant != other
    ensures SameAt(s, s.(reports := s.reports[j := job]), other, a)
  {
    SameDocumentsSpare(s, s.(reports := s.reports[j := job]), other, a);
  }

  lemma {:induction false} StatusSpares(s: Store, d: nat, status: DocumentStatus, other: nat, a: nat)
    requires !Owns(s.docs, other, d)
    ensures SameAt(s, s.(docs := SetStatus(s.docs, d, status)), other, a)
  {
    SameTablesSpare(s, s.(docs := SetStatus(s.docs, d, status)), other, a);
  }

  lemma {:induction false} IngestedSpares(
      s: Store, d: nat, entries: seq<Entry>, vectors: seq<Vector>, other: nat, a: nat)
    requires d in s.docs && !Owns(s.docs, other, d)
    ensures SameAt(s, Ingested(s, d, entries, vectors), other, a)
  {
    var t := Ingested(s, d, entries, vectors);
    SameTablesSpare(s, t, other, a);
    if a != d {
      assert ChunksFor(t.chunks, a) == ChunksFor(s.chunks, a);
    }
  }

  lemma {:induction false} RoutedSpares(
      s: Store, item: ReviewItem, candidates: seq<Candidate>, threshold: real, firstId: nat, other: nat, a: nat)
    requires IdsFrom(s.reviews, firstId) && item.tenant != other
    ensures SameAt(s, s.(reviews := Routed(s.reviews, item, candidates, threshold, firstId)), other, a)
  {
    var t := s.(reviews := Routed(s.reviews, item, candidates, threshold, firstId));
    SameDocumentsSpare(s, t, other, a);
    RoutedIsExact(s.reviews, item, candidates, threshold, firstId, a);
  }

  lemma {:induction false} ClaimedIngestion(s: Store, now: nat, j: nat)
    requires NextId(s.ingestions, now) == Some(j) && j in s.ingestions
    ensures var job := ClaimRow(s.ingestions[j], now);
            var t := s.(ingestions := s.ingestions[j := job]);
            var u := t.(docs := SetStatus(t.docs, job.subject.document, DocFailed));
            ClaimIngestion(s, now) == t || ClaimIngestion(s, now) == u
  {
  }

  lemma {:induction false} ClaimIngestionSpares(p: Parser, s: Store, now: nat, other: nat, a: nat)
    requires Coherent(p, s) && ActsFor(s, IngestionClaim(now)) != Some(other)
    ensures SameAt(s, ClaimIngestion(s, now), other, a)
  {
    var next := NextId(s.ingestions, now);
    if next.Some? && next.value in s.ingestions {
      var job := ClaimRow(s.ingestions[next.value], now);
      var t := s.(ingestions := s.ingestions[next.value := job]);
      var u := t.(docs := SetStatus(t.docs, job.subject.document, DocFailed));
      ClaimedIngestion(s, now, next.value);
      IngestionFindsFile(p, s, next.value);
      IngestionRowSpares(s, next.value, job, other, a);
      StatusSpares(t, job.subject.document, DocFailed, other, a);
      SameAtChains(s, t, u, other, a);
    }
  }

  lemma {:induction false} ClaimExtractionSpares(s: Store, now: nat, other: nat, a: nat)
    requires ActsFor(s, ExtractionClaim(now)) != Some(other)
    ensures SameAt(s, ClaimExtraction(s, now), other, a)
  {
    var next := NextId(s.extractions, now);
    if next.Some? && next.value in s.extractions {
      ExtractionRowSpares(s, next.value, ClaimRow(s.extractions[next.value], now), other, a);
    }
  }

  lemma {:induction false} ClaimReportSpares(s: Store, now: nat, other: nat, a: nat)
    requires ActsFor(s, ReportClaim(now)) != Some(other)
    ensures SameAt(s, ClaimReport(s, now), other, a)
  {
    var next := NextId(s.reports, now);
    if next.Some? && next.value in s.reports {
      ReportRowSpares(s, next.value, ClaimRow(s.reports[next.value], now), other, a);
    }
  }

  lemma {:induction false} SettleIngestionSpares(
      s: Store, j: nat, outcome: Result<(seq<Entry>, seq<Vector>), string>, other: nat, a: nat)
    requires j in s.ingestions && s.ingestions[j].subject.tenant != other
    requires Owns(s.docs, s.ingestions[j].subject.tenant, s.ingestions[j].subject.document)
    ensures SameAt(s, SettleIngestion(s, j, outcome), other, a)
  {
    var u, d := SettleIngestion(s, j, outcome), s.ingestions[j].subject.document;
    var t := s.(ingestions := u.ingestions);
    if !WrongTotal(outcome) {
      IngestionRowSpares(s, j, u.ingestions[j], other, a);
      match outcome
      case Err(_) =>
        StatusSpares(t, d, DocFailed, other, a);
      case Ok(parsed) =>
        IngestedSpares(t, d, parsed.0, parsed.1, other, a);
        assert Ingested(t, d, parsed.0, parsed.1) == u;
      SameAtChains(s, t, u, other, a);
    }
  }

  lemma {:induction false} SettleExtractionSpares(
      s: Store, j: nat, outcome: Result<ObligationExtraction, string>, threshold: real, firstId: nat,
      other: nat, a: nat)
    requires j in s.extractions && s.extractions[j].subject.tenant != other && IdsFrom(s.reviews, firstId)
    ensures SameAt(s, SettleExtraction(s, j, outcome, threshold, firstId), other, a)
  {
    var u, subject := SettleExtraction(s, j, outcome, threshold, firstId), s.extractions[j].subject;
    var t := s.(extractions := u.extractions);
    ExtractionRowSpares(s, j, u.extractions[j], other, a);
    if outcome.Ok? {
      var item := PendingItem(subject.tenant, FromExtraction, subject.document, j);
      RoutedSpares(t, item, ExtractionCandidates(outcome.value), threshold, firstId, other, a);
      SameAtChains(s, t, u, other, a);
    }
  }

  lemma {:induction false} SettleReportSpares(
      s: Store, j: nat, outcome: Result<seq<ReportEntry>, string>, threshold: real, firstId: nat,
      other: nat, a: nat)
    requires j in s.reports && s.reports[j].subject.tenant != other && IdsFrom(s.reviews, firstId)
    ensures SameAt(s, SettleReport(s, j, outcome, threshold, firstId), other, a)
  {
    var u, subject := SettleReport(s, j, outcome, threshold, firstId), s.reports[j].subject;
    var t := s.(reports := u.reports);
    ReportRowSpares(s, j, u.reports[j], other, a);
    if outcome.Ok? {
      var item := PendingItem(subject.tenant, FromReport, subject.base, j);
      RoutedSpares(t, item, ImpactCandidates(outcome.value), threshold, firstId, other, a);
      SameAtChains(s, t, u, other, a);
    }
  }

  lemma {:induction false} StepSparesAt(p: Parser, s: Store, e: Step, other: nat, a: nat)
    requires Coherent(p, s) && Possible(s, e) && ActsFor(s, e) != Some(other)
    ensures SameAt(s, Do(p, s, e), other, a)
  {
    match e
    case IngestionClaim(now) => ClaimIngestionSpares(p, s, now, other, a);
    case ExtractionClaim(now) => ClaimExtractionSpares(s, now, other, a);
    case ReportClaim(now) => ClaimReportSpares(s, now, other, a);
    case IngestionFinish(j, ask) =>
      IngestionFindsFile(p, s, j);
      SettleIngestionSpares(s, j, IngestionOutcome(p, s, s.ingestions[j].subject.document, ask), other, a);
    case ExtractionFinish(j, replies, threshold, firstId) =>
      var outcome := ExtractionOutcome(s, s.extractions[j].subject, replies);
      SettleExtractionSpares(s, j, outcome, threshold, firstId, other, a);
    case ReportFinish(j, obligations, explained, o, threshold, firstId) =>
      var outcome := ReportOutcome(s, s.reports[j].subject, obligations, explained, o);
      SettleReportSpares(s, j, outcome, threshold, firstId, other, a);
    case _ => RequestSparesAt(p, s, e, other, a);
  }

  lemma {:induction false} SettlingKeepsFiles(
      s: Store, j: nat, ingested: Result<(seq<Entry>, seq<Vector>), string>,
      extracted: Result<ObligationExtraction, string>, reported: Result<seq<ReportEntry>, string>, threshold: real,
      firstId: nat)
    ensures j in s.ingestions ==> SettleIngestion(s, j, ingested).files == s.files
    ensures j in s.extractions ==> SettleExtraction(s, j, extracted, threshold, firstId).files == s.files
    ensures j in s.reports ==> SettleReport(s, j, reported, threshold, firstId).files == s.files
  {
  }

  lemma {:induction false} FinishesKeepFiles(p: Parser, s: Store, e: Step)
    requires Possible(s, e) && (e.IngestionFinish? || e.ExtractionFinish? || e.ReportFinish?)
    ensures Do(p, s, e).files == s.files
  {
    match e
    case IngestionFinish(j, ask) =>
      var subject := s.ingestions[j].subject;
      if Owns(s.docs, subject.tenant, subject.document) {
        SettlingKeepsFiles(s, j, IngestionOutcome(p, s, subject.document, ask), Err(""), Err(""), 0.0, 0);
      }
    case ExtractionFinish(j, replies, threshold, firstId) =>
      var outcome := ExtractionOutcome(s, s.extractions[j].subject, replies);
      SettlingKeepsFiles(s, j, Err(""), outcome, Err(""), threshold, firstId);
    case ReportFinish(j, obligations, explained, o, threshold, firstId) =>
      var outcome := ReportOutcome(s, s.reports[j].subject, obligations, explained, o);
      SettlingKeepsFiles(s, j, Err(""), Err(""), outcome, threshold, firstId);
  }

  lemma {:induction false} StepSparesFile(p: Parser, s: Store, e: Step, other: nat, content: Content)
    requires Possible(s, e) && ActsFor(s, e) != Some(other)
    ensures SameFile(s, Do(p, s, e), other, content)
  {
    if e.IngestionFinish? || e.ExtractionFinish? || e.ReportFinish? {
      FinishesKeepFiles(p, s, e);
    }
  }

  /** No step, a worker's included, changes anything of a tenant it does not act for. */
  lemma {:induction false} StepsSpareOthers(p: Parser, s: Store, e: Step, other: nat)
    requires Coherent(p, s) && Possible(s, e) && ActsFor(s, e) != Some(other)
    ensures SameFor(s, Do(p, s, e), other)
  {
    var t := Do(p, s, e);
    forall a: nat ensures SameAt(s, t, other, a) {
      StepSparesAt(p, s, e, other, a);
    }
    forall content: Content ensures SameFile(s, t, other, content) {
      StepSparesFile(p, s, e, other, content);
    }
  }

  // ----- Refusals see only the tenant's own rows -----

  lemma {:induction false} LatestIsLocal<S, R>(rows: Table<S, R>, others: Table<S, R>, ids: set<nat>)
    requires ids <= rows.Keys && ids <= others.Keys && forall j <- ids :: rows[j] == others[j]
    ensures Latest(rows, ids) == Latest(others, ids)
  {
    LatestIsNewest(rows, ids);
    LatestIsNewest(others, ids);
    if ids != {} {
      var latest := Latest(rows, ids).value;
      assert IsLatest(others, ids, latest);
    }
  }

  ghost predicate SameJobAt<R>(rows: Table<DocumentJob, R>, others: Table<DocumentJob, R>, document: nat, j: nat) {
    j in rows && rows[j].subject.document == document ==> j in others && others[j] == rows[j]
  }

  /** What is asked about the jobs of a document has the same answer in tables that agree on them. */
  lemma {:induction false} LatestAgree<R>(rows: Table<DocumentJob, R>, others: Table<DocumentJob, R>, document: nat)
    requires forall j: nat :: SameJobAt(rows, others, document, j) && SameJobAt(others, rows, document, j)
    ensures Latest(rows, JobsOf(rows, document)) == Latest(others, JobsOf(others, document))
    ensures Latest(rows, ActiveOf(rows, document)) == Latest(others, ActiveOf(others, document))
  {
    forall j: nat ensures j in JobsOf(rows, document) <==> j in JobsOf(others, document)
                  ensures j in ActiveOf(rows, document) <==> j in ActiveOf(others, document)
                  ensures j in JobsOf(rows, document) ==> rows[j] == others[j]
    {
      assert SameJobAt(rows, others, document, j) && SameJobAt(others, rows, document, j);
    }
    assert JobsOf(rows, document) == JobsOf(others, document) && ActiveOf(rows, document) == ActiveOf(others, document);
    LatestIsLocal(rows, others, JobsOf(rows, document));
    LatestIsLocal(rows, others, ActiveOf(rows, document));
  }

  /** The jobs of an own document are the tenant's own, so they are the same in both stores. */
  lemma {:induction false} SameJobs(p: Parser, s: Store, t: Store, tenant: nat, document: nat, j: nat)
    requires Coherent(p, s) && SameFor(s, t, tenant) && Owns(s.docs, tenant, document)
    ensures SameJobAt(s.ingestions, t.ingestions, document, j)
    ensures SameJobAt(s.extractions, t.extractions, document, j)
  {
    assert RowsOk(s, j) && SameAt(s, t, tenant, j);
  }

  lemma {:induction false} JobRefusalsAreLocal(p: Parser, s: Store, t: Store, tenant: nat, document: nat)
    requires Coherent(p, s) && Coherent(p, t) && SameFor(s, t, tenant)
    ensures IngestionRefusal(s, tenant, document) == IngestionRefusal(t, tenant, document)
    ensures ExtractionRefusal(s, tenant, document) == ExtractionRefusal(t, tenant, document)
    ensures Owns(s.docs, tenant, document) ==> document in t.docs && Gap(s, document) == Gap(t, document)
  {
    assert SameAt(s, t, tenant, document);
    if Owns(s.docs, tenant, document) {
      SameForIsSymmetric(s, t, tenant);
      forall j: nat
        ensures SameJobAt(s.ingestions, t.ingestions, document, j)
        ensures SameJobAt(t.ingestions, s.ingestions, document, j)
        ensures SameJobAt(s.extractions, t.extractions, document, j)
        ensures SameJobAt(t.extractions, s.extractions, document, j)
      {
        SameJobs(p, s, t, tenant, document, j);
        SameJobs(p, t, s, tenant, document, j);
      }
      LatestAgree(s.ingestions, t.ingestions, document);
      LatestAgree(s.extractions, t.extractions, document);
      LatestIsNewest(s.extractions, JobsOf(s.extractions, document));
      var latest := Latest(s.extractions, JobsOf(s.extractions, document));
      assert latest.Some? ==> SameJobAt(s.extractions, t.extractions, document, latest.value);
    }
  }

  lemma {:induction false} TwinIsLocal(p: Parser, s: Store, t: Store, tenant: nat, content: Content)
    requires Coherent(p, s) && Coherent(p, t) && SameFor(s, t, tenant)
    ensures Twin(s.docs, tenant, content) == Twin(t.docs, tenant, content)
  {
    forall a: nat ensures IsTwin(s.docs, tenant, content, a) <==> IsTwin(t.docs, tenant, content, a) {
      assert SameAt(s, t, tenant, a);
    }
    var x, y := Twin(s.docs, tenant, content), Twin(t.docs, tenant, content);
    if x.Some? {
      assert IsTwin(s.docs, tenant, content, x.value);
      TwinIsFound(t.docs, tenant, content, x.value);
      assert Unlike(t, x.value, y.value);
    }
  }

  lemma {:induction false} AmendedIsLocal(p: Parser, s: Store, t: Store, tenant: nat, id: nat)
    requires Coherent(p, s) && SameFor(s, t, tenant) && Owns(s.docs, tenant, id) && Amended(s.docs, id)
    ensures Amended(t.docs, id)
  {
    var a :| a in s.docs && s.docs[a].amends == Some(id);
    assert DocOk(s, a) && SameAt(s, t, tenant, a);
  }

  lemma {:induction false} DeleteRefusalIsLocal(p: Parser, s: Store, t: Store, tenant: nat, id: nat)
    requires Coherent(p, s) && Coherent(p, t) && SameFor(s, t, tenant)
    ensures DeleteRefusal(s, tenant, id) == DeleteRefusal(t, tenant, id)
  {
    assert SameAt(s, t, tenant, id);
    DeletableIsUnreferenced(p, s, tenant, id);
    DeletableIsUnreferenced(p, t, tenant, id);
    if Owns(s.docs, tenant, id) && Amended(s.docs, id) {
      AmendedIsLocal(p, s, t, tenant, id);
    }
    if Owns(t.docs, tenant, id) && Amended(t.docs, id) {
      SameForIsSymmetric(s, t, tenant);
      AmendedIsLocal(p, t, s, tenant, id);
    }
  }

  lemma {:induction false} SameForIsSymmetric(s: Store, t: Store, tenant: nat)
    requires SameFor(s, t, tenant)
    ensures SameFor(t, s, tenant)
  {
    forall a: nat ensures SameAt(t, s, tenant, a) {
      assert SameAt(s, t, tenant, a);
    }
    forall content: Content ensures SameFile(t, s, tenant, content) {
      assert SameFile(s, t, tenant, content);
    }
  }

  /** Whether and why a request is refused depends on nothing but the tenant's own rows. */
  lemma {:induction false} RefusalsAreLocal(
      p: Parser, s: Store, t: Store, tenant: nat, u: Upload, maxBytes: nat, id: nat, base: nat, amended: nat)
    requires Coherent(p, s) && Coherent(p, t) && SameFor(s, t, tenant) && u.tenant == tenant
    ensures UploadRefusal(s, u, maxBytes) == UploadRefusal(t, u, maxBytes)
    ensures DeleteRefusal(s, tenant, id) == DeleteRefusal(t, tenant, id)
    ensures IngestionRefusal(s, tenant, id) == IngestionRefusal(t, tenant, id)
    ensures ExtractionRefusal(s, tenant, id) == ExtractionRefusal(t, tenant, id)
    ensures ReportRefusal(s, tenant, base, amended) == ReportRefusal(t, tenant, base, amended)
    ensures ResolveRefusal(s, tenant, id) == ResolveRefusal(t, tenant, id)
  {
    TwinIsLocal(p, s, t, tenant, u.content);
    DeleteRefusalIsLocal(p, s, t, tenant, id);
    JobRefusalsAreLocal(p, s, t, tenant, id);
    JobRefusalsAreLocal(p, s, t, tenant, base);
    JobRefusalsAreLocal(p, s, t, tenant, amended);
    assert SameAt(s, t, tenant, base) && SameAt(s, t, tenant, amended) && SameAt(s, t, tenant, id);
    assert u.amends.Some? ==> SameAt(s, t, tenant, u.amends.value);
  }
}
