/** When ingestions and extractions are accepted. */
module StoreGates {
  import opened Wrappers
  import opened Jobs
  import opened Store
  import opened StoreLaws

  // ----- Enqueueing -----

  ghost predicate NoneActive<R>(rows: Table<DocumentJob, R>, document: nat) {
    forall j <- rows :: rows[j].subject.document == document ==> !Active(rows[j])
  }

  lemma {:induction false} LatestActive<R>(rows: Table<DocumentJob, R>, document: nat)
    ensures var latest := Latest(rows, ActiveOf(rows, document));
            && (latest.None? <==> NoneActive(rows, document))
            && (latest.Some? ==>
                  && latest.value in rows && rows[latest.value].subject.document == document
                  && Active(rows[latest.value]))
  {
    var ids := ActiveOf(rows, document);
    LatestIsNewest(rows, ids);
    forall j <- rows | rows[j].subject.document == document && Active(rows[j]) ensures j in ids {
    }
  }

  /** At most one job of a document is active, so the latest active one is every active one. */
  lemma {:induction false} ConflictIsActive<R>(rows: Table<DocumentJob, R>, document: nat, j: nat)
    requires forall i: nat, k: nat :: OneActive(rows, i, k)
    ensures Latest(rows, ActiveOf(rows, document)) == Some(j) <==>
            j in rows && rows[j].subject.document == document && Active(rows[j])
  {
    LatestActive(rows, document);
    var latest := Latest(rows, ActiveOf(rows, document));
    if latest.Some? {
      assert OneActive(rows, j, latest.value);
    }
  }

  /**
   * An ingestion is queued exactly for an own document without unfinished ingestion; a conflict names that ingestion.
   */
  lemma {:induction false} IngestionGateIsExact(p: Parser, s: Store, tenant: nat, document: nat, j: nat)
    requires Coherent(p, s)
    ensures var refusal := IngestionRefusal(s, tenant, document);
            && (refusal.None? <==> Owns(s.docs, tenant, document) && NoneActive(s.ingestions, document))
            && (refusal == Some(DocumentNotFound(document)) <==> !Owns(s.docs, tenant, document))
            && (refusal == Some(Conflict(j)) <==>
                  && Owns(s.docs, tenant, document)
                  && j in s.ingestions && s.ingestions[j].subject.document == document && Active(s.ingestions[j]))
  {
    LatestActive(s.ingestions, document);
    ConflictIsActive(s.ingestions, document, j);
  }

  /** An extraction is queued exactly for an own parsed document without unfinished extraction. */
  lemma {:induction false} ExtractionGateIsExact(p: Parser, s: Store, tenant: nat, document: nat, j: nat)
    requires Coherent(p, s)
    ensures var refusal := ExtractionRefusal(s, tenant, document);
            && (refusal.None? <==>
                  && Owns(s.docs, tenant, document) && s.docs[document].status == DocParsed
                  && NoneActive(s.extractions, document))
            && (refusal == Some(DocumentNotFound(document)) <==> !Owns(s.docs, tenant, document))
            && (refusal == Some(NotParsed(Latest(s.ingestions, JobsOf(s.ingestions, document)))) <==>
                  Owns(s.docs, tenant, document) && s.docs[document].status != DocParsed)
            && (refusal == Some(Conflict(j)) <==>
                  && Owns(s.docs, tenant, document) && s.docs[document].status == DocParsed
                  && j in s.extractions && s.extractions[j].subject.document == document && Active(s.extractions[j]))
  {
    LatestActive(s.extractions, document);
    ConflictIsActive(s.extractions, document, j);
  }
}
