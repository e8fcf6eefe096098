/**
 * The document store and its job tables as one state, and every operation on it as one step
 * (app/services/documents.py, ingestion.py, extraction.py, change_report.py, review_queue.py and their repositories).
 */
module Store {
  import opened Wrappers
  import opened Parsing
  import opened Chunking
  import opened ClauseChunks
  import opened Embedding
  import opened Jobs
  import opened Extraction
  import opened Diffing
  import opened Report

  datatype Mime = Pdf | Docx | PlainText

  newtype Byte = x: int | 0 <= x < 256

  /** The uploaded bytes; a row's digest of them is taken to identify them. */
  type Content = seq<Byte>

  /** What the format-specific readers make of stored bytes. */
  type Parser = (Mime, Content) -> Result<seq<Entry>, string>

  datatype DocumentStatus = DocUploaded | DocParsed | DocFailed

  datatype Document = Document(tenant: nat, mime: Mime, content: Content, amends: Option<nat>, status: DocumentStatus)

  datatype TextRow = TextRow(text: string, pageMap: seq<PageSpan>)

  datatype ChunkRow = ChunkRow(document: nat, ordinal: nat, chunk: Chunk)

  datatype DocumentJob = DocumentJob(tenant: nat, document: nat)

  datatype ReportJob = ReportJob(tenant: nat, base: nat, amended: nat)

  datatype ReviewSource = FromExtraction | FromReport

  datatype Disposition = Pending | Approved | Edited | Rejected

  /** The item under review as the worker recorded it; the constructor is its item type. */
  datatype Payload =
    | ObligationItem(obligation: Obligation)
    | TermItem(term: DefinedTerm)
    | ImpactItem(affected: Obligation, change: Change, explanation: Explanation)

  datatype ReviewItem = ReviewItem(
    tenant: nat, source: ReviewSource, document: nat, job: nat, payload: Payload, confidence: real,
    status: Disposition, corrected: Option<string>, resolvedAt: Option<nat>)

  type Vector = seq<real>

  type IngestionTable = Table<DocumentJob, nat>
  type ExtractionTable = Table<DocumentJob, ObligationExtraction>
  type ReportTable = Table<ReportJob, seq<ReportEntry>>

  /** `vectors` is the embedding column of the chunk rows: one vector per chunk of a document, in ordinal order. */
  datatype Store = Store(
    docs: map<nat, Document>, files: set<(nat, Content)>,
    texts: map<nat, TextRow>, chunks: set<ChunkRow>, vectors: map<nat, seq<Vector>>,
    ingestions: IngestionTable, extractions: ExtractionTable, reports: ReportTable, reviews: map<nat, ReviewItem>)

  function Empty(): Store {
    Store(map[], {}, map[], {}, map[], map[], map[], map[], map[])
  }

  /** A row is only ever found through its own tenant. */
  predicate Owns(docs: map<nat, Document>, tenant: nat, id: nat) {
    id in docs && docs[id].tenant == tenant
  }

  function SetStatus(docs: map<nat, Document>, id: nat, status: DocumentStatus): map<nat, Document> {
    if id in docs then docs[id := docs[id].(status := status)] else docs
  }

  // ----- Upload -----

  datatype Upload = Upload(
    tenant: nat, declared: Option<Mime>, sniffed: Option<Mime>, content: Content, amends: Option<nat>)

  datatype UploadError = MimeNotAllowed | TooLarge | ParentNotFound | AlreadyExists(existing: nat)

  predicate IsTwin(docs: map<nat, Document>, tenant: nat, content: Content, id: nat) {
    Owns(docs, tenant, id) && docs[id].content == content
  }

  ghost function Twin(docs: map<nat, Document>, tenant: nat, content: Content): Option<nat> {
    if exists id: nat :: IsTwin(docs, tenant, content, id) then
      var id: nat :| IsTwin(docs, tenant, content, id);
      Some(id)
    else None
  }

  /** Checks in the order of the code: a bad parent is reported even when the bytes are a duplicate. */
  ghost function UploadRefusal(s: Store, u: Upload, maxBytes: nat): Option<UploadError> {
    if u.declared.None? then Some(MimeNotAllowed)
    else if |u.content| > maxBytes then Some(TooLarge)
    else if u.sniffed != u.declared then Some(MimeNotAllowed)
    else if u.amends.Some? && !Owns(s.docs, u.tenant, u.amends.value) then Some(ParentNotFound)
    else
      match Twin(s.docs, u.tenant, u.content)
      case Some(existing) => Some(AlreadyExists(existing))
      case None => None
  }

  ghost function UploadDocument(s: Store, u: Upload, maxBytes: nat, id: nat): Store {
    if UploadRefusal(s, u, maxBytes).Some? then s
    else
      s.(docs := s.docs[id := Document(u.tenant, u.declared.value, u.content, u.amends, DocUploaded)],
         files := s.files + {(u.tenant, u.content)})
  }

  // ----- Delete -----

  datatype DeleteError = NoSuchDocument | HasAmendments | ForeignKeyViolation

  predicate Amended(docs: map<nat, Document>, id: nat) {
    exists other <- docs :: docs[other].amends == Some(id)
  }

  function ReportsNaming(reports: ReportTable, amended: nat): set<nat> {
    set j <- reports | reports[j].subject.amended == amended
  }

  function JobsOf<R>(rows: Table<DocumentJob, R>, document: nat): set<nat> {
    set j <- rows | rows[j].subject.document == document
  }

  /** The items neither routed from the given reports nor concerning the document. */
  function ReviewsWithout(reviews: map<nat, ReviewItem>, reportIds: set<nat>, document: nat): map<nat, ReviewItem> {
    map r <- reviews | reviews[r].job !in reportIds && reviews[r].document != document :: reviews[r]
  }

  function ChunksWithout(chunks: set<ChunkRow>, document: nat): set<ChunkRow> {
    set c <- chunks | c.document != document
  }

  /** The cascade before the document row itself goes. */
  function Swept(s: Store, id: nat): Store {
    var reportIds := ReportsNaming(s.reports, id);
    s.(reports := s.reports - reportIds,
       reviews := ReviewsWithout(s.reviews, reportIds, id),
       chunks := ChunksWithout(s.chunks, id),
       vectors := s.vectors - {id},
       texts := s.texts - {id},
       extractions := s.extractions - JobsOf(s.extractions, id),
       ingestions := s.ingestions - JobsOf(s.ingestions, id))
  }

  /** Rows that would still point at the document after the sweep. */
  predicate StillReferenced(s: Store, id: nat) {
    || (exists j <- s.reports :: s.reports[j].subject.base == id || s.reports[j].subject.amended == id)
    || (exists j <- s.extractions :: s.extractions[j].subject.document == id)
    || (exists j <- s.ingestions :: s.ingestions[j].subject.document == id)
    || (exists r <- s.reviews :: s.reviews[r].document == id)
  }

  function DeleteRefusal(s: Store, tenant: nat, id: nat): Option<DeleteError> {
    if !Owns(s.docs, tenant, id) then Some(NoSuchDocument)
    else if Amended(s.docs, id) then Some(HasAmendments)
    else if StillReferenced(Swept(s, id), id) then Some(ForeignKeyViolation)
    else None
  }

  function DeleteDocument(s: Store, tenant: nat, id: nat): Store {
    if DeleteRefusal(s, tenant, id).Some? then s
    else Swept(s, id).(docs := s.docs - {id}, files := s.files - {(tenant, s.docs[id].content)})
  }

  // ----- Enqueue -----

  function ActiveOf<R>(rows: Table<DocumentJob, R>, document: nat): set<nat> {
    set j <- rows | rows[j].subject.document == document && Active(rows[j])
  }

  datatype Prerequisite = NeedsIngestion | NeedsExtraction

  datatype EnqueueError =
    | DocumentNotFound(document: nat)
    | Conflict(job: nat)
    | NotParsed(latest: Option<nat>)
    | AmendmentMismatch(base: nat, amended: nat)
    | PrerequisiteMissing(prerequisiteOf: nat, kind: Prerequisite, latest: Option<nat>)

  ghost function IngestionRefusal(s: Store, tenant: nat, document: nat): Option<EnqueueError> {
    if !Owns(s.docs, tenant, document) then Some(DocumentNotFound(document))
    else
      match Latest(s.ingestions, ActiveOf(s.ingestions, document))
      case Some(active) => Some(Conflict(active))
      case None => None
  }

  ghost function ExtractionRefusal(s: Store, tenant: nat, document: nat): Option<EnqueueError> {
    if !Owns(s.docs, tenant, document) then Some(DocumentNotFound(document))
    else if s.docs[document].status != DocParsed then
      Some(NotParsed(Latest(s.ingestions, JobsOf(s.ingestions, document))))
    else
      match Latest(s.extractions, ActiveOf(s.extractions, document))
      case Some(active) => Some(Conflict(active))
      case None => None
  }

  /** The first missing job of one version: ingestion before extraction. */
  ghost function Gap(s: Store, document: nat): Option<EnqueueError>
    requires document in s.docs
  {
    var extraction := Latest(s.extractions, JobsOf(s.extractions, document));
    if s.docs[document].status != DocParsed then
      Some(PrerequisiteMissing(document, NeedsIngestion, Latest(s.ingestions, JobsOf(s.ingestions, document))))
    else if extraction.None? || extraction.value !in s.extractions
            || s.extractions[extraction.value].status != Completed then
      Some(PrerequisiteMissing(document, NeedsExtraction, extraction))
    else None
  }

  ghost function ReportRefusal(s: Store, tenant: nat, base: nat, amended: nat): Option<EnqueueError> {
    if !Owns(s.docs, tenant, base) then Some(DocumentNotFound(base))
    else if !Owns(s.docs, tenant, amended) then Some(DocumentNotFound(amended))
    else if s.docs[amended].amends != Some(base) then Some(AmendmentMismatch(base, amended))
    else if Gap(s, base).Some? then Gap(s, base)
    else Gap(s, amended)
  }

  ghost function EnqueueIngestion(s: Store, tenant: nat, document: nat, id: nat, now: nat): Store {
    if IngestionRefusal(s, tenant, document).Some? then s
    else s.(ingestions := s.ingestions[id := NewJob(DocumentJob(tenant, document), now)])
  }

  ghost function EnqueueExtraction(s: Store, tenant: nat, document: nat, id: nat, now: nat): Store {
    if ExtractionRefusal(s, tenant, document).Some? then s
    else s.(extractions := s.extractions[id := NewJob(DocumentJob(tenant, document), now)])
  }

  ghost function EnqueueReport(s: Store, tenant: nat, base: nat, amended: nat, id: nat, now: nat): Store {
    if ReportRefusal(s, tenant, base, amended).Some? then s
    else s.(reports := s.reports[id := NewJob(ReportJob(tenant, base, amended), now)])
  }

  // ----- Claim -----

  /** A job claimed past its cap also ends its document's wait. */
  ghost function ClaimIngestion(s: Store, now: nat): Store {
    var t := s.(ingestions := ClaimTable(s.ingestions, now));
    match NextId(s.ingestions, now)
    case None => t
    case Some(id) =>
      if id in t.ingestions && t.ingestions[id].status == Jobs.Failed
         && Owns(t.docs, t.ingestions[id].subject.tenant, t.ingestions[id].subject.document)
      then t.(docs := SetStatus(t.docs, t.ingestions[id].subject.document, DocFailed))
      else t
  }

  ghost function ClaimExtraction(s: Store, now: nat): Store {
    s.(extractions := ClaimTable(s.extractions, now))
  }

  ghost function ClaimReport(s: Store, now: nat): Store {
    s.(reports := ClaimTable(s.reports, now))
  }

  // ----- Finish -----

  function ChunkList(entries: seq<Entry>): seq<Chunk> {
    BuiltBlocksWithin(entries);
    ChunksOf(Built(entries))
  }

  function TextRowOf(entries: seq<Entry>): TextRow {
    TextRow(Built(entries).text, Built(entries).pageMap)
  }

  /** One row per chunk, numbered densely from zero. */
  function RowsOf(document: nat, chunks: seq<Chunk>): set<ChunkRow> {
    set i | 0 <= i < |chunks| :: ChunkRow(document, i, chunks[i])
  }

  function ChunkTexts(chunks: seq<Chunk>): seq<string> {
    seq(|chunks|, i requires 0 <= i < |chunks| => chunks[i].text)
  }

  /** What reading, parsing, chunking and embedding a document arrives at: its entries and the vectors of its chunks. */
  function IngestionOutcome(
      p: Parser, s: Store, id: nat, ask: Endpoint<Vector>): Result<(seq<Entry>, seq<Vector>), string>
    requires id in s.docs
  {
    var d := s.docs[id];
    if (d.tenant, d.content) !in s.files then Err("stored file missing")
    else
      match p(d.mime, d.content)
      case Err(error) => Err(error)
      case Ok(entries) =>
        match Embedded(ChunkTexts(ChunkList(entries)), ask, 0)
        case Err(error) => Err(error)
        case Ok(vectors) => Ok((entries, vectors))
  }

  /** The document with text and chunks replaced together, before the job row is marked. */
  function Ingested(s: Store, id: nat, entries: seq<Entry>, vectors: seq<Vector>): Store {
    s.(texts := s.texts[id := TextRowOf(entries)],
       chunks := ChunksWithout(s.chunks, id) + RowsOf(id, ChunkList(entries)),
       vectors := s.vectors[id := vectors],
       docs := SetStatus(s.docs, id, DocParsed))
  }

  function FailIngestion(s: Store, j: nat, error: string): Store
    requires j in s.ingestions
  {
    s.(ingestions := s.ingestions[j := FailedRow(s.ingestions[j], error)],
       docs := SetStatus(s.docs, s.ingestions[j].subject.document, DocFailed))
  }

  /** A total of vectors that does not match the chunks raises past the handler, and the transaction is rolled back. */
  predicate WrongTotal(outcome: Result<(seq<Entry>, seq<Vector>), string>) {
    outcome.Ok? && |outcome.value.1| != |ChunkList(outcome.value.0)|
  }

  /** Every other failure becomes data on the row and the document. */
  function SettleIngestion(s: Store, j: nat, outcome: Result<(seq<Entry>, seq<Vector>), string>): Store
    requires j in s.ingestions
  {
    var job := s.ingestions[j];
    if WrongTotal(outcome) then s
    else
      match outcome
      case Err(error) => FailIngestion(s, j, error)
      case Ok(parsed) =>
        Ingested(s, job.subject.document, parsed.0, parsed.1)
        .(ingestions := s.ingestions[j := CompletedRow(job, |ChunkList(parsed.0)|)])
  }

  function FinishIngestion(p: Parser, s: Store, j: nat, ask: Endpoint<Vector>): Store
    requires j in s.ingestions
  {
    var job := s.ingestions[j];
    if !Owns(s.docs, job.subject.tenant, job.subject.document) then
      s.(ingestions := s.ingestions[j := FailedRow(job, "document vanished after enqueue")])
    else SettleIngestion(s, j, IngestionOutcome(p, s, job.subject.document, ask))
  }

  /** An item under review with the model's confidence in it. */
  type Candidate = (Payload, real)

  /** One pending item for each candidate whose confidence is strictly below the threshold. */
  function Routed(
      reviews: map<nat, ReviewItem>, item: ReviewItem, candidates: seq<Candidate>, threshold: real, firstId: nat)
    : map<nat, ReviewItem>
  {
    if candidates == [] then reviews
    else
      var n := |candidates| - 1;
      var before := Routed(reviews, item, candidates[..n], threshold, firstId);
      if candidates[n].1 < threshold
      then before[firstId + n := item.(payload := candidates[n].0, confidence := candidates[n].1)] else before
  }

  /** A pending item of the given job, to be completed with a candidate. */
  function PendingItem(tenant: nat, source: ReviewSource, document: nat, job: nat): ReviewItem {
    var nothing := ObligationItem(Obligation("", "", None, Citation(0, 0), 0.0));
    ReviewItem(tenant, source, document, job, nothing, 0.0, Pending, None, None)
  }

  function ExtractionCandidates(e: ObligationExtraction): seq<Candidate> {
    seq(|e.obligations|, i requires 0 <= i < |e.obligations| =>
      (ObligationItem(e.obligations[i]), e.obligations[i].confidence))
    + seq(|e.definedTerms|, i requires 0 <= i < |e.definedTerms| =>
      (TermItem(e.definedTerms[i]), e.definedTerms[i].confidence))
  }

  const NO_TEXT := "no parsed text"

  /** What the handler arrives at: the gated extraction, or the first thing that went wrong. */
  ghost function ExtractionOutcome(
      s: Store, subject: DocumentJob, replies: seq<Reply>): Result<ObligationExtraction, string>
    requires |replies| == CITATION_ATTEMPTS
  {
    if !Owns(s.docs, subject.tenant, subject.document) then Err("document vanished after enqueue")
    else if subject.document !in s.texts then Err(NO_TEXT)
    else Extracted(replies, s.texts[subject.document].text)
  }

  function SettleExtraction(
      s: Store, j: nat, outcome: Result<ObligationExtraction, string>, threshold: real, firstId: nat): Store
    requires j in s.extractions
  {
    var job := s.extractions[j];
    match outcome
    case Err(error) => s.(extractions := s.extractions[j := FailedRow(job, error)])
    case Ok(result) =>
      var item := PendingItem(job.subject.tenant, FromExtraction, job.subject.document, j);
      s.(extractions := s.extractions[j := CompletedRow(job, result)],
         reviews := Routed(s.reviews, item, ExtractionCandidates(result), threshold, firstId))
  }

  ghost function FinishExtraction(s: Store, j: nat, replies: seq<Reply>, threshold: real, firstId: nat): Store
    requires j in s.extractions && |replies| == CITATION_ATTEMPTS
  {
    SettleExtraction(s, j, ExtractionOutcome(s, s.extractions[j].subject, replies), threshold, firstId)
  }

  /** The obligations of the latest extraction, if that one completed. */
  ghost function BaseObligations(rows: ExtractionTable, document: nat): seq<Obligation> {
    match Latest(rows, JobsOf(rows, document))
    case None => []
    case Some(id) =>
      if id in rows && rows[id].status == Completed && rows[id].result.Some?
      then rows[id].result.value.obligations else []
  }

  function ImpactCandidates(report: seq<ReportEntry>): seq<Candidate> {
    if report == [] then []
    else
      var n := |report| - 1;
      var entry := report[n];
      ImpactCandidates(report[..n])
      + seq(|entry.impacts|, i requires 0 <= i < |entry.impacts| =>
          (ImpactItem(entry.impacts[i].0, entry.change, entry.explanation), entry.impacts[i].1))
  }

  /** `obligations` are the base version's, as read some time during the run. */
  ghost function ReportOutcome(
      s: Store, subject: ReportJob, obligations: seq<Obligation>, explained: ExplainReply, o: Oracle)
    : Result<seq<ReportEntry>, string>
  {
    if subject.base !in s.texts || subject.amended !in s.texts then Err(NO_TEXT)
    else ReportOf(s.texts[subject.base].text, s.texts[subject.amended].text, obligations, explained, o)
  }

  function SettleReport(
      s: Store, j: nat, outcome: Result<seq<ReportEntry>, string>, threshold: real, firstId: nat): Store
    requires j in s.reports
  {
    var job := s.reports[j];
    match outcome
    case Err(error) => s.(reports := s.reports[j := FailedRow(job, error)])
    case Ok(report) =>
      var item := PendingItem(job.subject.tenant, FromReport, job.subject.base, j);
      s.(reports := s.reports[j := CompletedRow(job, report)],
         reviews := Routed(s.reviews, item, ImpactCandidates(report), threshold, firstId))
  }

  ghost function FinishReport(
      s: Store, j: nat, obligations: seq<Obligation>, explained: ExplainReply, o: Oracle, threshold: real,
      firstId: nat): Store
    requires j in s.reports
  {
    SettleReport(s, j, ReportOutcome(s, s.reports[j].subject, obligations, explained, o), threshold, firstId)
  }

  // ----- Review -----

  datatype ResolveError = ItemNotFound | AlreadyResolved

  function ResolveRefusal(s: Store, tenant: nat, item: nat): Option<ResolveError> {
    if item !in s.reviews || s.reviews[item].tenant != tenant then Some(ItemNotFound)
    else if s.reviews[item].status != Pending then Some(AlreadyResolved)
    else None
  }

  function Resolve(
      s: Store, tenant: nat, item: nat, disposition: Disposition, corrected: Option<string>, now: nat): Store
  {
    if ResolveRefusal(s, tenant, item).Some? then s
    else
      var resolved := s.reviews[item].(status := disposition, corrected := corrected, resolvedAt := Some(now));
      s.(reviews := s.reviews[item := resolved])
  }

  // ----- All steps -----

  datatype Step =
    | Uploading(upload: Upload, maxBytes: nat, id: nat)
    | Deleting(tenant: nat, id: nat)
    | RequestIngestion(tenant: nat, document: nat, id: nat, now: nat)
    | RequestExtraction(tenant: nat, document: nat, id: nat, now: nat)
    | RequestReport(tenant: nat, base: nat, amended: nat, id: nat, now: nat)
    | IngestionClaim(now: nat)
    | ExtractionClaim(now: nat)
    | ReportClaim(now: nat)
    | IngestionFinish(job: nat, ask: Endpoint<Vector>)
    | ExtractionFinish(job: nat, replies: seq<Reply>, threshold: real, firstId: nat)
    | ReportFinish(
        job: nat, obligations: seq<Obligation>, explained: ExplainReply, oracle: Oracle, threshold: real, firstId: nat)
    | Resolving(tenant: nat, item: nat, disposition: Disposition, corrected: Option<string>, now: nat)

  predicate WasClaimed<S, R>(rows: Table<S, R>, j: nat) {
    j in rows && rows[j].attempts >= 1
  }

  predicate IdsFrom(reviews: map<nat, ReviewItem>, firstId: nat) {
    forall r <- reviews :: r < firstId
  }

  /** The obligations cite the document's text, as those of every extraction that completed for it do. */
  predicate Readable(s: Store, document: nat, obligations: seq<Obligation>) {
    document in s.texts ==> forall o <- obligations :: Grounded(o.citation, s.texts[document].text)
  }

  /**
   * Ids are fresh, also across the two tables a review item may point into, and a job is finished only after it was
   * claimed at least once. A report works with obligations that some extraction of the base version may have held when
   * it read them. Nothing else is asked: a worker may finish a job late, twice, or after another worker already
   * finished it.
   */
  predicate Possible(s: Store, e: Step) {
    match e
    case Uploading(_, _, id) => id !in s.docs
    case RequestIngestion(_, _, id, _) => id !in s.ingestions
    case RequestExtraction(_, _, id, _) => id !in s.extractions && id !in s.reports
    case RequestReport(_, _, _, id, _) => id !in s.reports && id !in s.extractions
    case IngestionFinish(job, _) => WasClaimed(s.ingestions, job)
    case ExtractionFinish(job, replies, _, firstId) =>
      WasClaimed(s.extractions, job) && |replies| == CITATION_ATTEMPTS && IdsFrom(s.reviews, firstId)
    case ReportFinish(job, obligations, _, _, _, firstId) =>
      && WasClaimed(s.reports, job) && IdsFrom(s.reviews, firstId)
      && Readable(s, s.reports[job].subject.base, obligations)
    case Resolving(_, _, disposition, _, _) => disposition != Pending
    case _ => true
  }

  ghost function Do(p: Parser, s: Store, e: Step): Store
    requires Possible(s, e)
  {
    match e
    case Uploading(u, maxBytes, id) => UploadDocument(s, u, maxBytes, id)
    case Deleting(tenant, id) => DeleteDocument(s, tenant, id)
    case RequestIngestion(tenant, document, id, now) => EnqueueIngestion(s, tenant, document, id, now)
    case RequestExtraction(tenant, document, id, now) => EnqueueExtraction(s, tenant, document, id, now)
    case RequestReport(tenant, base, amended, id, now) => EnqueueReport(s, tenant, base, amended, id, now)
    case IngestionClaim(now) => ClaimIngestion(s, now)
    case ExtractionClaim(now) => ClaimExtraction(s, now)
    case ReportClaim(now) => ClaimReport(s, now)
    case IngestionFinish(job, ask) => FinishIngestion(p, s, job, ask)
    case ExtractionFinish(job, replies, threshold, firstId) => FinishExtraction(s, job, replies, threshold, firstId)
    case ReportFinish(job, obligations, explained, oracle, threshold, firstId) =>
      FinishReport(s, job, obligations, explained, oracle, threshold, firstId)
    case Resolving(tenant, item, disposition, corrected, now) => Resolve(s, tenant, item, disposition, corrected, now)
  }
}
