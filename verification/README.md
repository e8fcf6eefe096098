# Contract analysis service: a verified model

This project models the logic of a service that ingests agreements, extracts obligations from them with a
language model, compares an agreement with its amendment and reports the changes. It covers three connected cores.

* **Text coordinates.** Every citation, chunk and change is a pair of character offsets into one canonical text.
  `Parsing`, `Paragraphs` and `PlainText` build and read that text; `Chunking` and `ClauseChunks` cut it into
  windows, and `ClauseLaws` says where each chunk stops and the next begins; `ClauseKeys`, `Headings`, `Sections`,
  `Diffing` and `DiffLaws` align two texts clause by clause; `Extraction`, `Impact`, `Report` and `ReportLaws` gate what the model says about them; `Embedding` lines vectors up with chunks; `Pipeline`
  joins citation and chunk.
* **Jobs and documents.** `Jobs` holds the rows and the table class all three queues share, `Lease` the runs of one
  queue under any number of workers, `Scheduler` one worker's rotation among the others, and `Worker` the worker
  loop over three tables. `Store` is the whole database as one state with one function per operation, `StoreLaws`
  proves what every run keeps, `StoreSteps` what each step does to its own rows, `StoreTheorems` what that means, `StoreGates` when jobs are accepted, `StoreTenants` how
  far the steps of one tenant reach, and `Services` the service functions as they run: statements over mutable tables, each
  proved equal to its step.
* **Rank fusion.** `Fusion`, `FusionLaws` and `Search` treat reciprocal rank fusion with exact scores.

Loops and row updates are methods proved against functions; the properties are lemmas about those functions, for
every input and every run. `Text` and `Wrappers` hold what the others share.

## Assumptions

* Text is a sequence of characters. One whitespace predicate stands for both `\s` and `strip`. Clause keys use
  ASCII digits and letters, scores and confidences are real numbers, times are natural numbers of seconds.
* Format readers are an arbitrary deterministic function from type and bytes to entries. Bytes stand for their
  SHA-256 digest, so two documents with one digest have the same bytes. Model replies, embeddings and the two search
  rankings are arbitrary inputs; the rankings of one search name chunks of one table.
* An operation is one step: upload with file write, delete with file removal, enqueue check with insert
  (`app/services/extraction.py:220-223`), completion with review routing (`app/services/change_report.py:387-402`),
  text and chunks with the status flip. Nothing is claimed about the gaps between their commits.
* A handler reads its document and texts in the same step in which it finishes. For texts this loses nothing:
  `StoreTheorems.TextIsStable` shows that a stored text never changes while its document exists. The latest
  extraction of the base version can change during a report run, so a finish of a report works with any obligations
  that cite the base text; what was read earlier in the run does (`StoreTheorems.ObligationsStayReadable`).
* `mark_completed` and `mark_failed` write whatever row they are given (`app/repositories/extraction_jobs.py:80-99`).
  `Store` lets any once-claimed job be finished at any time, by anyone, repeatedly. Only the fenced statements of
  `Lease` assume more, and say so.
* Both write all four columns of that row: status, result, error and lease. The ORM omits a column that its session
  sees unchanged, so a late `mark_failed` on a row that was loaded without a result really leaves the result stored
  by another session in place; the model clears it. What is said of results beside a failed status in unfenced runs
  (`Lease.RunsAreSound`) rests on this.
* An error raised outside a handler's `try` block rolls back what the handler wrote since its last commit. The one
  such error that is modelled is the wrong number of vectors (`app/repositories/document_chunks.py:35-36`).

## What the proofs found

* The docstring of `Change` (`app/services/diffing.py:64`) says that exactly one span is missing. A `modified`
  change has both, as after any one-letter edit (`DiffLaws.EditHasBothSpans`). The sentence holds for all changes of two
  versions exactly when every key reads the same in both as far as both have it (`DiffLaws.OneSpanMissingExactly`).
* A block text that holds a blank line, which a DOCX paragraph can, is not read back as one paragraph
  (`Paragraphs.BlankLineSplitsBlock`). The round trip holds exactly when no block text does
  (`Paragraphs.BuildThenScan`); plain text always qualifies.
* Each seam of the chunker is meant to repeat some text. A window from `pos` to `stop` shares some with the next one
  exactly when the characters from max(stop - 200, pos + 1) to `stop` hold one that is not whitespace
  (`Chunking.SeamOverlap`); a window of one character never does (`Chunking.SliverSeamIsBare`), and such seams occur
  in solid text (`Chunking.BareSeamOccurs`). One cut can cost 201 windows that all end at it
  (`Chunking.SliverRunAttained`, and `Chunking.OneSpaceCreeps` for texts that show it), and never more
  (`Chunking.FewWindowsEndTogether`, `Chunking.FewShortWindowsInARow`).
* Agreement between the two engines beats one top rank exactly for pages of up to 30 hits
  (`FusionLaws.AgreementWinsUpToThirty`). The route allows 50 (`app/api/routes/search.py:22`).
* `explain_changes` asks for exactly one explanation per change but accepts several; the last one counts
  (`Report.RepeatedExplanationPasses`). An accepted reply explains each change once exactly when it is as long as the
  list of changes (`Report.OnceEachExactly`), and for replies that are not longer the validation is exact
  (`Report.ShortRepliesAreValidatedExactly`).
* A selection is capped by its limit exactly for limits of at least one; a limit below that means no limit
  (`Impact.LimitCapsExactly`). The service passes 20 (`app/services/change_report.py:490`).
* Without a fencing check a worker that outlived its lease turns another worker's completed job into a failed one
  (`Lease.LostWorkerOverwrites`), or fails the job first and has its owner revive it (`Lease.OwnerOverwrites`); such
  states are reachable (`Lease.LossIsReachable`). After any run, a finish meets its own running row exactly when the
  row is still running and the claim is the latest one (`Lease.FinishIsOwnExactly`).
* The check on embedding replies compares totals. It guarantees every chunk its own vector exactly for documents of
  at most 128 chunks (`Embedding.TotalSufficesExactly`): from 129 on, non-empty replies whose errors cancel out shift
  vectors by one (`Embedding.TotalHidesShift`). It decides about the last batch when all earlier ones are complete
  (`Embedding.TotalDecidesLast`).

## Model

| member | source | states |
|---|---|---|
| Parsing.Build | app/services/parsing.py:118-138 | the one-pass builder with its open page span yields the document defined by joining entries one at a time |
| Parsing.BuildLaysOut | app/services/parsing.py:118-138 | for any entries, block i is an exact slice, starts the text or follows the previous block by exactly one separator, and the last block ends the text |
| Parsing.BlockOrder | app/services/parsing.py:123-131 | blocks never overlap: an earlier block ends before a later one starts |
| Parsing.PageMapPartitions | app/services/parsing.py:132-137 | with present, non-decreasing page numbers the page spans are contiguous, increase in number, cover the text exactly, and each block lies in its own page's span |
| Paragraphs.ScanParagraphs | app/services/diffing.py:155-166 | the scanning loop equals the recursive cut of the text |
| Paragraphs.ParagraphsAreCuts | app/services/diffing.py:155-166 | the paragraphs are exact slices without separator, none of them blank, in order and apart |
| Paragraphs.ParagraphsMissOnlyBlanks | app/services/diffing.py:155-166 | every character that is not whitespace lies in some paragraph |
| Paragraphs.BuildThenScan | app/services/diffing.py:155-166 | for stripped non-empty entries, scanning the built text returns exactly the blocks if and only if no entry contains a blank line |
| Paragraphs.BlankLineSplitsBlock | app/services/diffing.py:155-166 | a stripped one-block text with a blank line inside is not read back as its block |
| PlainText.EntriesAreSolid | app/services/parsing.py:94-101 | every entry of parsed plain text is stripped, non-empty and free of blank lines |
| PlainText.ParsedTextScansBack | app/services/parsing.py:94-101 | the differ's paragraphs of any parsed plain text are exactly its blocks |
| PlainText.ParsingKeepsInk | app/services/parsing.py:94-101 | the blocks together hold every non-whitespace character of the input, in order, and no other |
| PlainText.OneParagraphIsOneBlock | app/services/parsing.py:94-101 | a text without blank line is at most one block, its stripped text |
| PlainText.BlankLineSplitsText | app/services/parsing.py:94-101 | any text is parsed by parsing what stands before its first blank line and what stands after the whitespace there |
| PlainText.SolidEntriesReadBack | app/services/parsing.py:94-101 | any list of stripped paragraphs without blank lines is read back from its canonical text |
| PlainText.ParseTextIdempotent | app/services/parsing.py:94-101 | parsing a canonical text again yields the same document |
| Chunking.SplitRange | app/services/chunking.py:72-98 | the windowing loop terminates and yields the windows of its recursive definition, which the next rows pin down |
| Chunking.WindowsStopAndResumeWell | app/services/chunking.py:83-98 | for every text and bounds list: a window is the last one if and only if the rest fits; every other one ends at the furthest bound between half the cap and the cap away, or at the last cut if there is none; the next one starts at the first non-whitespace character of the overlap, or at the seam |
| Chunking.BestStopIsMax | app/services/chunking.py:89-94 | the chosen bound is the largest that qualifies, and none is chosen only when none qualifies |
| Chunking.SnapIsLastCut | app/services/chunking.py:101-103 | the whitespace fallback cuts at the last space or newline of the budget, or at the budget when there is none |
| Chunking.WindowsTile | app/services/chunking.py:72-98 | windows are non-empty and within the cap, the first begins and the last ends the range, starts strictly increase and each seam leaves no gap and goes back at most the overlap |
| Chunking.TilesCover | app/services/chunking.py:72-98 | every position of the range lies in some window |
| Chunking.SeamOverlap | app/services/chunking.py:96-97 | the next window shares text with this one if and only if the re-included tail, which never reaches back to the window's first character, holds a non-whitespace character |
| Chunking.CreepingWindows | app/services/chunking.py:84-98 | while the start creeps towards one fixed whitespace cut, the short windows are paid for by the distance left to it |
| Chunking.WindowBound | app/services/chunking.py:84-98 | the window count is at most (OVERLAP+2) times the number of strides begun, for every text and bounds list |
| Chunking.WindowCountLinear | app/services/chunking.py:19-20 | with the real constants: at most 202 windows per 3800 characters begun |
| Chunking.SliverRunAttained | app/services/chunking.py:96-103 | a lone cut within half a window really produces OVERLAP+1 windows that end at it |
| Chunking.OneSpaceCreeps | app/services/chunking.py:96-103 | a text with one space among letters has such a cut: its windows begin with that run |
| Chunking.FewWindowsEndTogether | app/services/chunking.py:84-98 | in every tiling, windows that end at one position are at most OVERLAP places apart, so no run is longer |
| Chunking.FewShortWindowsInARow | app/services/chunking.py:84-98 | for every text and bounds list, short windows in a row before the last one all end at one position, and at most OVERLAP+1 of them follow each other |
| Chunking.BareSeamOccurs | app/services/chunking.py:96-97 | a text with one space among letters has a seam that repeats nothing although its window is solid |
| ClauseChunks.FindClauses | app/services/chunking.py:52-69 | the clause loop with its optional open start equals the block-by-block scan |
| ClauseChunks.BuildClauses | app/services/chunking.py:52-69 | for any built document, a position lies in some clause if and only if it is in the text and not in the separator before a heading |
| ClauseChunks.ChunkDocument | app/services/chunking.py:30-49 | the chunker produces the chunks of each clause in order, or fixed windows when there is no heading |
| ClauseChunks.ChunksCoverDocument | app/services/chunking.py:30-49 | every chunk is a non-empty exact slice within the cap, and a position lies in some chunk if and only if it is not in a heading's separator |
| ClauseLaws.ClausesAreRuns | app/services/chunking.py:52-69 | the clauses are exactly the runs of blocks from the first block or a heading up to the next heading |
| ClauseLaws.ChunksKeepToClauses | app/services/chunking.py:30-49 | every chunk lies in one clause; it ends it if the rest fits, else it ends at the furthest block end of that clause in reach, or at the last cut; without headings block ends do not count |
| ClauseLaws.ChunksSucceed | app/services/chunking.py:30-49 | each chunk is followed by the one that resumes it after the whitespace of the overlap, or hands over to a later clause |
| Pipeline.GroundedCitationIsRetrievable | app/services/impact.py:69-77 | a grounded citation overlaps some chunk if and only if it cites a character outside heading separators |
| Pipeline.EveryGroundedObligationIsSelectable | app/services/impact.py:54-80 | with all chunks retrieved and room for all, exactly those obligations become candidates |
| ClauseKeys.LeadingZeros | app/services/diffing.py:182 | leading zeros never change a number |
| ClauseKeys.SpellingsNormalize | app/services/diffing.py:34-43 | every prefixed, punctuated or padded spelling of a number has its key, exactly when it is prefixed, dotted, punctuated or followed by an upper-case letter |
| ClauseKeys.NumberedLinesAreSpelled | app/services/diffing.py:34-43 | conversely every line that has a clause number is such a spelling of it |
| ClauseKeys.RefReadsBack | app/services/diffing.py:193-200 | the reference of a numeric key plus a title reads back as the key if and only if it is dotted or the title is capitalized |
| ClauseKeys.KeysAreProper | app/services/diffing.py:169-190 | keys are non-empty numbers or headings that contain a letter |
| Headings.HeadingsKeyByWords | app/services/diffing.py:184-190 | a line without number is keyed by its words in lower case, whatever whitespace surrounds them, if it is short and all-caps, and else has no key |
| Headings.TitlesShareWords | app/services/diffing.py:184-190 | two such headings share a key if and only if their words agree up to case |
| ClauseKeys.RefIsInjective | app/services/diffing.py:193-200 | different keys, the missing one included, have different references |
| Sections.FindSections | app/services/diffing.py:139-152 | the loop that extends the last section equals the recursive grouping |
| Sections.SectionsFollowLines | app/services/diffing.py:139-152 | in every text the sections begin exactly at the first paragraph and at those whose first line has a key, each under the key and reference of that line, and run up to the next one |
| Sections.KeyIsUnique | app/services/diffing.py:146 | every paragraph has exactly one key, that of what stands before its first newline |
| Sections.OpenersAreExact | app/services/diffing.py:146-151 | sections open exactly at the keyed paragraphs and at the first paragraph |
| Sections.SectionsPartition | app/services/diffing.py:139-152 | grouping makes section i the contiguous run of paragraphs from opener i to the next |
| Sections.SectionsAreWellFormed | app/services/diffing.py:139-152 | sections are non-empty, ordered and disjoint spans of the text, and only the first can lack a key |
| Diffing.PartnersShareKeyAndRank | app/services/diffing.py:100-103 | two sections are paired if and only if they have the same key and the same rank among the sections of that key |
| Diffing.PartnerIsSymmetric | app/services/diffing.py:100-103 | pairing is the same relation seen from either version |
| Diffing.GreedyTakesPartner | app/services/diffing.py:99-114 | the first unconsumed candidate of the greedy loop is the section's partner by rank |
| Diffing.DetectChanges | app/services/diffing.py:86-136 | indexing, greedy matching with a consumed set and the final sweep refine the declarative pairing |
| DiffLaws.DiffIsShapedAndOrdered | app/services/diffing.py:60-72 | the kind decides which spans are present, every span is non-empty and valid in its text, and changes come in base order followed by added ones in amended order |
| DiffLaws.LookupInDiff | app/services/diffing.py:100-124 | looking a base section up in the change list tells exactly whether it was removed, modified or kept |
| DiffLaws.ChangesCarryRefs | app/services/diffing.py:100-135 | a change carries the reference of the base section it concerns, and only an added one that of the amended section |
| DiffLaws.DiffPatchesBase | app/services/diffing.py:86-136 | applying the changes to the base texts of a key yields exactly the amended texts of that key, in order |
| DiffLaws.EmptyIffSameTexts | app/services/diffing.py:86-136 | no change is reported if and only if every key has the same texts in both versions |
| DiffLaws.NoModificationExactly | app/services/diffing.py:106-124 | no change is a modification if and only if every key has the same texts in both versions as far as both have them |
| DiffLaws.OneSpanMissingExactly | app/services/diffing.py:60-72 | every change misses exactly one span, as documented, if and only if the same condition holds |
| DiffLaws.EditHasBothSpans | app/services/diffing.py:60-72 | a concrete one-letter edit whose reported change misses no span |
| DiffLaws.NoChangeToItself | app/services/diffing.py:86-136 | a text has no changes against itself |
| DiffLaws.RemovedAndAddedAreDual | app/services/diffing.py:86-136 | swapping the versions turns the removed list into the added list and back, same order, spans swapped |
| DiffLaws.ModifiedIsSelfDual | app/services/diffing.py:86-136 | swapping the versions keeps the set of modified changes, spans swapped and reference kept |
| Extraction.SplitCited | app/services/extraction.py:117-151 | one pass splits the items into the grounded ones, by kind, and the rejected spans |
| Extraction.KeptIsExact | app/services/extraction.py:117-151 | an item is kept if and only if its span is grounded, and nothing is rejected if and only if all are |
| Extraction.ExtractObligations | app/services/extraction.py:154-193 | the bounded retry: a fully grounded reply is returned as is, a last reply is cut to its grounded part and refused only when that is empty, call failures propagate |
| Extraction.ExtractedIsGrounded | app/services/extraction.py:122-129 | whatever the model replies, every item that gets out is grounded |
| Extraction.ExtractedExactly | app/services/extraction.py:154-193 | an extraction succeeds if and only if the reply that counts arrives and has no items or a grounded one, and then holds exactly its grounded obligations and terms in order; a failed call passes its error on |
| Impact.CandidatesAreExact | app/services/impact.py:54-80 | the candidates are exactly the obligations overlapping some chunk, each position once, by first overlapping chunk and then by position |
| Impact.SelectCandidates | app/services/impact.py:54-80 | the nested loops with early return yield the first `limit` candidates, and all of them for a limit below one |
| Impact.SelectionIsExact | app/services/impact.py:54-80 | the selection keeps retrieval order, and an overlapping obligation is left out only when the limit is reached and all selected ones rank before it |
| Impact.LimitCapsExactly | app/services/impact.py:54-80 | the limit caps every selection if and only if it is at least one |
| Impact.FirstMentionsMeans | app/services/impact.py:126-139 | exactly the mentioned indices are kept, each once |
| Impact.MapChangeImpacts | app/services/impact.py:87-140 | the loop refuses a reply if and only if it names an unknown candidate and otherwise keeps first mentions in order |
| Impact.MapReplyIsExact | app/services/impact.py:87-140 | a reply is accepted if and only if it names listed candidates only, and then each mentioned one is reported once, in the order and with the confidence of its first mention |
| Report.ExplainedExactly | app/services/change_report.py:277-283 | a reply is accepted if and only if it names every change and nothing else, and each change gets the last explanation that names it |
| Report.RepeatedExplanationPasses | app/services/change_report.py:277-282 | a reply with two explanations of one change passes, although the message demands exactly one |
| Report.OnceEachExactly | app/services/change_report.py:277-282 | an accepted reply has at least one explanation per change, and exactly one for each if and only if it is as long as the list of changes |
| Report.ShortRepliesAreValidatedExactly | app/services/change_report.py:277-282 | a reply no longer than the list of changes is accepted if and only if it explains every change once and nothing else |
| Report.QueryIsNeverEmpty | app/services/change_report.py:428-437 | the retrieval query of a detected change is present, non-empty and quotes the right version, in full unless that is over the limit |
| Report.MapImpacts | app/services/change_report.py:454-509 | the loop over changes refines one search and one mapping per change, the first failure ending it |
| Report.ImpactsAreRecalled | app/services/change_report.py:475-508 | every reported impact of change i names an obligation that overlaps a chunk its own search retrieved |
| Report.BuildReport | app/services/change_report.py:318-386 | diff, excerpts, explanations and impacts are zipped into one entry per detected change, or the first failure is returned |
| ReportLaws.EntriesAnswerTheirChanges | app/services/change_report.py:382-386 | in every report entry i is about change i: its excerpts quote it, its explanation is the last one that names i, and its impacts are those of search and reply i, each recalled by that search with a confidence of that reply |
| ReportLaws.ReportSucceedsExactly | app/services/change_report.py:318-344 | a report comes about if and only if the explanations are accepted and, unless there are no obligations, every change is searched and mapped; otherwise the explanations' failure or else that of the first change is returned |
| Fusion.Tally | app/services/search.py:38-43 | the two dictionaries hold exactly the union of the rankings, each item's total score and its number in order of first appearance |
| Fusion.RrfFuse | app/services/search.py:31-45 | the output is a duplicate-free permutation of the union, with exact scores, ordered by score and then by first appearance |
| Search.FusionIsUnique | app/services/search.py:35-45 | only one list meets that description, so ties never shuffle |
| FusionLaws.ScoreOfPlaces | app/services/search.py:38-43 | an item's score is the sum of 1/(k + place) over its places, counted from one |
| FusionLaws.TiesGoToTheFirstSeen | app/services/search.py:35-45 | of two items with the same score the one that the rankings show first comes first |
| FusionLaws.DominanceIsKept | app/services/search.py:31-45 | an item above b in every ranking that holds b comes before b |
| FusionLaws.AgreementWinsIff | app/services/search.py:25-28 | for duplicate-free rankings of length up to n, every item in both precedes every item in one if and only if n is at most k+1 |
| FusionLaws.AgreementWinsUpToThirty | app/services/search.py:139-157 | with the real constants this holds exactly for pages of up to 30 hits |
| FusionLaws.LoneTopWins | app/services/search.py:38-45 | one place beyond the bound, a lone top rank ties with double agreement and wins as first seen |
| Search.HybridHits | app/services/search.py:139-174 | a page is the first `limit` entries of the fusion, each with its own chunk row and score |
| Embedding.EmbedChunkTexts | app/services/ingestion.py:189-198 | the batching loop asks for consecutive batches, call by call, and concatenates the replies or stops at the first failure |
| Embedding.VectorsAreAligned | app/services/ingestion.py:189-198 | with one vector per text in each reply, vector i is the one its own call gave for text i |
| Embedding.TotalHidesShift | app/repositories/document_chunks.py:35-36 | for any texts of more than one batch there are non-empty replies whose total is right although not every batch is answered in full |
| Embedding.TotalDecidesLast | app/repositories/document_chunks.py:35-36 | if all batches before the last are answered in full, the total is right if and only if the last one is too |
| Embedding.TotalSufficesExactly | app/repositories/document_chunks.py:35-36 | a right total means every batch is answered in full, for all replies, if and only if there are at most 128 texts |
| Jobs.NextIdIsOldest | app/repositories/job_claims.py:51-64 | the claimed row is the unique oldest runnable one by creation and id, and nothing is claimed if and only if nothing is runnable |
| Jobs.LatestIsNewest | app/repositories/extraction_jobs.py:47-61 | the latest job of a document is the unique newest by creation and then lowest id, and missing only when there is none |
| Jobs.JobTable.ClaimNext | app/repositories/job_claims.py:34-77 | the in-place updates claim that row: one more attempt under a fresh lease, or failure past the cap; all other rows unchanged |
| Jobs.JobTable.MarkCompleted | app/repositories/extraction_jobs.py:80-89 | the row gets result and status and loses error and lease; all other rows unchanged |
| Jobs.JobTable.MarkFailed | app/repositories/extraction_jobs.py:92-99 | the row gets the error cut to 1024 characters and loses result and lease; all other rows unchanged |
| Lease.RunsAreSound | app/repositories/job_claims.py:50-77 | in every run with crashes, late finishes and deletions: running if and only if leased, queued means no attempts, completed if and only if a result, at most four attempts, and no job is ever handed out more than three times |
| Lease.RunsAreLeased | app/repositories/job_claims.py:50-77 | in every run, fenced or not, a latest claim on a running row carries the row's lease and every older claim lapses before it |
| Lease.ClaimsAreBounded | app/repositories/job_claims.py:65-75 | claims plus the attempts still open never exceed those open at the start plus four per enqueue |
| Lease.ClaimUsesOneToken | app/repositories/job_claims.py:68-75 | each claim uses up exactly one open attempt, of the row it takes |
| Lease.OnTimeRunsAreFenced | app/repositories/job_claims.py:56-58 | workers that finish before their lease lapses, or never, always finish under the latest claim |
| Lease.FencedRunsAreFenced | app/repositories/job_claims.py:50-77 | in fenced runs a latest claim owns a running row under its own lease and every older claim lapsed before that lease began |
| Lease.RunsAreExclusive | app/repositories/job_claims.py:50-77 | in every run each hold lapses no later than the row's lease, and of two holds of one job at least one has lapsed |
| Lease.OneLiveHolder | app/repositories/job_claims.py:3-8 | after any run, late finishes and deleted jobs included, at most one worker within its lease holds a job |
| Lease.LiveHolderOwnsRow | app/repositories/job_claims.py:3-8 | in fenced runs the row of a worker within its lease runs under exactly that lease |
| Lease.TerminalIsFinal | app/repositories/extraction_jobs.py:80-99 | in fenced runs completed and failed rows never change |
| Lease.FinishIsOwnExactly | app/repositories/extraction_jobs.py:80-99 | after any run, a finish meets a row running under its own lease if and only if the row is running and the claim is the latest |
| Lease.LostWorkerOverwrites | app/repositories/extraction_jobs.py:80-99 | after a second claim, a job completed by its owner can be turned into a failed one by the worker that lost it |
| Lease.OwnerOverwrites | app/repositories/extraction_jobs.py:80-99 | in the other order the worker that lost the job fails it and its owner, still the latest claimer, turns it into a completed one |
| Lease.LossIsReachable | app/repositories/job_claims.py:56-58 | a concrete run in which a worker has lost its job that way |
| Scheduler.BoundedWait | app/worker.py:51-54 | under any interleaving with other workers, a runnable job with n unfinished older jobs, new or left behind by a crashed worker, is claimed once more, finished or deleted before this worker has started 3(4n+1) passes, given later rows sort later |
| Scheduler.StepPaysBacklog | app/worker.py:80 | every pass start lowers a backlog of open older attempts and rotation distance, and nothing else raises it |
| Worker.RunNext | app/services/extraction.py:265-307 | the common handler shape settles the oldest runnable row, or leaves one past its cap failed |
| Worker.ProcessedEndsOldest | app/services/extraction.py:265-307 | a handler call ends the oldest runnable job and no other, with the outcome's result or error, or as failed when it was past the cap |
| Worker.RunNextJob | app/worker.py:28-54 | one pass processes the first queue with work in rotation order and no other, and reports work if and only if there was some |
| Worker.RunPasses | app/worker.py:68-83 | the loop starts pass i at queue i mod 3 |
| Worker.RotationServesAll | app/worker.py:76-80 | while no lease lapses, any three consecutive passes take a job from every queue that has one, however long the others are |
| Worker.QueueDrainsOnItsOwn | app/worker.py:51-54 | so a queue of n runnable jobs is empty after 3n passes, whatever the other queues hold |
| Worker.LoneWorkerDrains | app/worker.py:51-54 | a worker alone, with no lease lapsing meanwhile, finds work in exactly the first N passes for N runnable jobs and leaves none |
| StoreLaws.RunsAreCoherent | app/services/documents.py:128-332 | every state of every run keeps files, documents, texts, chunks, jobs and review items coherent, as the following rows spell out |
| StoreLaws.EmptyIsCoherent | app/models/document.py:17-36 | the empty store is coherent |
| StoreLaws.UploadKeeps | app/services/documents.py:140-180 | an upload keeps the store coherent: same-tenant parent, bytes once per tenant, acyclic amendments |
| StoreLaws.DeleteKeeps | app/services/documents.py:279-306 | the cascade keeps the store coherent; the removed file serves no other document |
| StoreLaws.DeletableIsUnreferenced | app/repositories/change_report_jobs.py:90-109 | once amendments are ruled out, the foreign keys never object to a deletion |
| StoreLaws.IngestingKeeps | app/services/ingestion.py:150-169 | replacing text, chunks and vectors keeps everything derived from the document valid, since a re-run writes the same text |
| StoreLaws.FinishIngestionKeeps | app/services/ingestion.py:105-172 | every ending of an ingestion, a wrong number of vectors included, keeps the store coherent, even late or repeated |
| StoreLaws.IngestionFindsFile | app/services/ingestion.py:122-131 | an ingestion always finds its document and the stored file: both failures are unreachable |
| StoreLaws.FinishExtractionKeeps | app/services/extraction.py:275-307 | likewise for extraction: completed results are grounded in the stored text |
| StoreLaws.FinishReportKeeps | app/services/change_report.py:318-403 | likewise for reports, whichever readable obligations they work with: completed reports list exactly the changes between the stored texts, with impacts that cite the base text |
| StoreLaws.RoutedIsExact | app/services/review_queue.py:46-87 | a review item with its own payload appears for exactly the candidates strictly below the threshold, and old items are untouched |
| StoreSteps.UploadGateIsExact | app/services/documents.py:139-169 | an upload is accepted if and only if type, size and parent are as they should be and the bytes are new for the tenant; else the first check that fails is named |
| StoreSteps.UploadAddsDocument | app/services/documents.py:171-190 | an accepted upload adds one document with the offered tenant, type, bytes and parent, status uploaded, and its file |
| StoreSteps.DeleteRemovesExactly | app/services/documents.py:285-306 | an accepted deletion removes exactly the document and what is about it from every table, and its file |
| StoreSteps.AcceptedIngestionIsQueued | app/services/ingestion.py:77 | an accepted request adds one queued job that was never claimed, the only unfinished one of the document |
| StoreSteps.AcceptedExtractionIsQueued | app/services/extraction.py:224-226 | likewise for an extraction |
| StoreSteps.AcceptedReportIsQueued | app/services/change_report.py:183-188 | an accepted report request adds one queued job about the two versions |
| StoreSteps.LaterJobIsLatest | app/repositories/extraction_jobs.py:47-61 | a job queued later than all others of its document is its latest |
| StoreSteps.CappedClaimFailsDocument | app/services/ingestion.py:112-121 | an ingestion claimed past its cap fails, and its document with it |
| StoreSteps.IngestionSucceeds | app/services/ingestion.py:150-172 | when the bytes parse and every chunk gets a vector, the document is parsed with text, chunks and vectors and the job completed with their number |
| StoreSteps.StoredVectorsAreOwn | app/repositories/document_chunks.py:38-52 | with one vector per text in every reply, stored vector i is the endpoint's answer for the text of chunk i |
| StoreSteps.IngestionFails | app/services/ingestion.py:143-149 | when parsing or embedding fails, document and job fail, with that error, and the texts stay |
| StoreSteps.WrongTotalChangesNothing | app/repositories/document_chunks.py:35-36 | a wrong number of vectors leaves everything as it was |
| StoreSteps.FreshDocumentGetsParsed | app/services/extraction.py:209-223 | a run from the empty store: upload, request, claim and finish, after which an extraction is accepted |
| StoreSteps.ExtractionEnds | app/services/extraction.py:288-307 | a finished extraction stores the gated result and adds exactly its low-confidence items as pending ones, or fails with the error |
| StoreSteps.ExtractionOffersAll | app/services/extraction.py:310-330 | all obligations and terms of an extraction are offered for review with their confidences |
| StoreSteps.ReportEnds | app/services/change_report.py:318-403 | a finished report stores its entries and adds exactly its low-confidence impacts as pending items, or fails with the error |
| StoreSteps.ReportOffersAll | app/services/change_report.py:389-393 | all impacts of a report are offered for review with the change and explanation of their entry |
| StoreSteps.ResolveIsExact | app/repositories/review_items.py:66-91 | a resolution succeeds if and only if the item is the tenant's own and pending, and sets disposition, correction and time and nothing else |
| StoreTheorems.ParsedIsExact | app/services/ingestion.py:150-169 | a parsed document has exactly the text its bytes parse to, and densely numbered chunk rows, row i being chunk i, that are exact slices and miss nothing but heading separators |
| StoreTheorems.ExtractionFindsText | app/services/extraction.py:276-289 | a queued extraction always finds its document and text: the no-parsed-text failure is unreachable |
| StoreTheorems.ReportFindsTexts | app/services/change_report.py:286-293 | a queued report always finds both texts, whichever obligations it works with |
| StoreTheorems.ObligationsStayReadable | app/services/change_report.py:408-426 | the obligations a report reads cite the base text at any later time the base document still exists |
| StoreTheorems.StoredReportsHold | app/services/change_report.py:318-386 | after any run a stored report lists exactly the changes between the stored texts, each with the explanation of its own index, its excerpts quote those texts, and every impact names an obligation that cites the stored base text |
| StoreTheorems.ReportGateIsExact | app/services/change_report.py:148-181 | a report is accepted if and only if one document amends the other, both are the tenant's, parsed, and their latest extraction is completed |
| StoreTheorems.ReportRefusalIsFirst | app/services/change_report.py:148-181 | a refused report names the first thing that is wrong: unknown base, unknown amendment, mismatch, then ingestion before extraction and base before amendment |
| StoreGates.IngestionGateIsExact | app/services/ingestion.py:57-77 | an ingestion is accepted if and only if the document is the tenant's own and has no unfinished one; a conflict names exactly that one |
| StoreGates.ExtractionGateIsExact | app/services/extraction.py:196-223 | an extraction is accepted if and only if the document is the tenant's own, parsed, and has no unfinished one; a conflict names exactly that one |
| StoreTenants.StepsSpareOthers | app/repositories/documents.py:33-49 | no step changes a document, file, text, chunk, vector, job or review item of a tenant other than the one who requests it or whose job is claimed or finished |
| StoreTenants.RefusalsAreLocal | app/repositories/documents.py:33-49 | whether and why a request is refused depends on nothing but the tenant's own rows and files |
| StoreTheorems.TextIsStable | app/repositories/document_texts.py:19-38 | until a document is deleted its text and chunk rows never change, so stored spans never go stale |
| StoreTheorems.DeletableExactlyWhenUnamended | app/services/documents.py:279-284 | a deletion succeeds if and only if the document is the tenant's own and nothing amends it |
| StoreTheorems.SomeDocumentIsDeletable | app/services/documents.py:281-284 | a non-empty store always has a deletable document |
| StoreTheorems.CanBeEmptied | app/services/documents.py:266-306 | deleting leaf first reaches the empty store in one deletion per document |
| StoreTheorems.ReferencesAreSound | app/services/documents.py:285-298 | no row of any table names a document that does not exist, and every review item names a job of its document in the table its source says |
| StoreTheorems.DeleteUndoesUpload | app/services/documents.py:266-313 | deleting a fresh upload restores the store exactly, file included |
| StoreTheorems.DuplicateIsNamed | app/services/documents.py:139-169 | in every coherent store an upload is refused as a duplicate of a document if and only if it passes the checks before and that document holds the same bytes for the same tenant |
| StoreTheorems.ResolvedIsTerminal | app/repositories/review_items.py:66-91 | no step changes a resolved review item, and only a deletion removes it |
| StoreTheorems.ResolvedStaysResolved | app/services/review_queue.py:4-6 | over every run a resolved item stays exactly as resolved for as long as it exists |
| Services.Database.UploadDocument | app/services/documents.py:128-205 | the checks in the order of the code, then file and row; refuses exactly as specified and otherwise is the upload step |
| Services.Database.DeleteDocument | app/services/documents.py:266-332 | refuses exactly as specified and otherwise performs the cascade, row and file removal |
| Services.Database.Sweep | app/services/documents.py:289-297 | the seven sweeping statements together remove exactly the rows tied to the document or to its reports |
| Services.Database.EnqueueIngestion | app/services/ingestion.py:57-89 | unknown document, then active job, else one queued row |
| Services.Database.EnqueueExtraction | app/services/extraction.py:196-237 | unknown document, then missing parse naming the latest ingestion, then active job, else one queued row |
| Services.Database.EnqueueReport | app/services/change_report.py:133-205 | the first gap in the order base before amendment and ingestion before extraction is named, else one queued row |
| Services.Database.RouteForReview | app/services/review_queue.py:52-87 | the loop creates the items of the specification, each with its payload and confidence |
| Services.Database.ResolveReviewItem | app/services/review_queue.py:112-155 | unknown or foreign items and second resolutions are refused; a pending item gets its disposition, correction and time |
| Services.Database.ReplaceChunks | app/repositories/document_chunks.py:19-54 | refused unless every chunk has one vector; otherwise exactly one row per chunk is left for this document, numbered from zero, with its vector |
| Services.Database.Ingest | app/services/ingestion.py:175-186 | reading, parsing, chunking and embedding in order, the first failure ending it, yield the ingestion outcome |
| Services.Database.ProcessIngestion | app/services/ingestion.py:122-172 | the claimed job ends as the ingestion step says; it raises exactly on a wrong number of vectors and then nothing is written |
| Services.Database.RunNextIngestionJob | app/services/ingestion.py:105-172 | a claim followed by the ingestion of the claimed job, document status included |
| Services.Database.RunNextExtractionJob | app/services/extraction.py:253-307 | a claim followed by the gated extraction and its review items |
| Services.Database.ProcessReport | app/services/change_report.py:318-403 | the claimed job ends as the report step says, with its review items |
| Services.Database.RunNextReportJob | app/services/change_report.py:296-403 | a claim followed by the report of the claimed job |
| Services.HandleIngestionKeeps | app/services/ingestion.py:105-172 | a whole ingestion pass keeps the store coherent |
| Services.HandleExtractionKeeps | app/services/extraction.py:253-307 | a whole extraction pass keeps the store coherent |
| Services.HandleReportKeeps | app/services/change_report.py:296-403 | a whole report pass keeps the store coherent |

## Left out

- PDF and DOCX reading, type sniffing and UTF-8 decoding: the entries and the sniffed type are inputs.
- Streaming an upload in pieces (`_read_upload`): the content is given as a whole with its length.
- The language model client, prompts, logging, token cost and usage rows: replies are arbitrary inputs.
- SQL, the ORM, vector and full-text ranking: tables are maps, rankings are arbitrary sequences without repeats.
- Floating-point rounding of scores and clamping of confidences at the schema: scores are exact.
- Unicode case and digits in clause keys: a heading with non-ASCII letters is not modelled.
- Crashes between the commits of one operation, and two requests racing inside one: each operation is one step.
- A worker process that dies of an exception outside the handlers' `try` blocks: it is a crash in `Lease`.
- Authentication, rate limits, routes, audit log, evaluation harness, migrations and the web interface.
- Services.Database.RunNextReportJob: an unparseable stored extraction is one without obligations, and the labels of a review payload are its constructor.
- Services.Database.ResolveReviewItem: corrected values are kept as given, as one piece of text.
- Scheduler.BoundedWait: counts passes, not time, and says nothing of a worker that never starts its next pass.
- Worker.LoneWorkerDrains: assumes that no other worker's lease lapses during the passes, as stated in its precondition.
