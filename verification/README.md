# Verification model of the railway bridge defect priority service

This project models the write side of a small Go service for railway bridges, inspection rounds,
defect findings and priority decisions, and proves what it keeps when many requests run at once.

- A **request** reads one row, checks its guards on that snapshot, and commits one conditional write
  (`id`, `version`, not deleted). For a priority decision the write also appends a revision, in the same
  transaction. An audit entry is appended afterwards, outside the transaction, and may be lost.
- A **run** is any sequence of steps: a client looks at a record, a request begins (read and guards),
  commits, appends its audit entry, or stops for good. A statement about all step sequences is a statement
  about all interleavings. `log` and `sources` in a state are records for the proofs; no step depends on them.
- **Disciplined** clients name only versions seen in an earlier read of that record. The program does not
  enforce this: the guards look at the row read, while the conditional write and the new version use the version the
  client named. `Discipline.GuardsSawTheRowIff` says exactly when the two agree.
- The **limiter** counts a request in Redis or, when Redis does not answer, in a map of per-minute buckets.
- The **audit summary** is five queries without a transaction; the **listing** is cut into pages.

Files follow the source: `Status`, `Distance` (the four graphs), `Records` (guards and writes as functions of
the table), `Effects` (the same spelled out from a request's inputs), `Store`, `DecisionRepository`,
`RecordService`, `DecisionService`, `AuditLog`, `Limiter` (the classes, each method proved against those
functions), `Protocol` (the concurrent system), and one file per family of results about runs (`Guesses`, `Deletions` and `Linearization` among them).

## Where code and documentation disagree

The repository's README calls observe, restrict and urgent final statuses that cannot be overwritten and says
that every status change is guarded by the optimistic lock and audited. The code is followed here:

- A client that names a version it has not seen can overwrite a final decision (`Witnesses.GuessedVersionUndoesFinal`,
  for every valid decision). A request can come to do so if and only if it names a version newer than the row it has
  just read, however disciplined everybody else is (`Guesses.UndoesFinalIffGuessed`).
- Deletion compares no version: as long as edits and status changes name the version they read, it removes a final
  decision if and only if a finalization is written between its read and its write
  (`Deletions.DeletionRemovesFinalIff`), which may happen to every waiting deletion of a live
  decision (`Deletions.WaitingDeletionMayDeleteFinalIff`; a run is `Witnesses.DeletionOvertakesFinal`). Interleaved runs
  are serial if and only if it does not happen (`SerialEquivalence.InterleavingIsSerial`).
- A status change whose audit entry is lost is reported as failed but stays (`DecisionService.Service.Transition`).

## Model

| member | source | states |
|---|---|---|
| Text.CanonicalAgrees | backend/internal/service/priority_decision.go:49 | two codes are stored alike exactly when they agree up to case and surrounding space |
| Text.CanonicalIsFixed | backend/internal/service/priority_decision.go:49 | a stored code is trimmed and upper-case, and storing it again changes nothing |
| Text.TrimIsMiddle | backend/internal/service/priority_decision.go:49 | trimming takes off the white space at both ends, all of it, and nothing else |
| Text.UpperIsByAlphabet | backend/internal/service/priority_decision.go:49 | upper-casing turns each small letter into the capital at its place in the alphabet and keeps all else |
| Status.NamedIffLabel | backend/internal/constants/status.go:57-60 | a request's text names a status exactly when it is that status's label |
| Status.StatusTexts | backend/internal/constants/status.go:28-55 | the texts of each machine's statuses in the order of its graph, the first being the initial one |
| Status.EdgesStayInside | backend/internal/constants/status.go:28-55 | every edge joins two statuses of its own entity |
| Status.DecisionEdges | backend/internal/constants/status.go:50-55 | a decision moves exactly from draft to observe, restrict or urgent |
| Distance.MoveIsShort | backend/internal/constants/status.go:28-48 | in the three cyclic graphs the allowed moves are exactly those by -1, +1 and +2 in the list |
| Distance.WalkIsNoShorter | backend/internal/constants/status.go:28-60 | every run from place i to place j takes at least ceil((j-i)/2) moves forward, or i-j back |
| Distance.RouteIsShortest | backend/internal/constants/status.go:28-60 | that many moves are enough |
| Tables.ApplyKeepsTable | backend/internal/repository/priority_decision.go:59-84 | an accepted write keeps ids, distinct canonical codes and gap-free revision chains, and the revision index refuses none |
| Tables.SeedsAreOk | backend/internal/database/database.go:212-252 | the seeded decisions are in order, for any texts |
| Effects.CreationAnswer | backend/internal/service/priority_decision.go:43-68 | a creation alone: refused for a blank required text, then for a taken code; else the row, each field from its own input, status "active", "planned", "new" or "draft", version 1, and for a decision its first revision |
| Effects.EditAnswer | backend/internal/service/priority_decision.go:70-106 | an edit alone: the error of the first guard it fails, in order; else the row with each field from its own input and the next version, and for a decision its revision |
| Effects.TransitionAnswer | backend/internal/service/priority_decision.go:108-138 | a status change alone, likewise: the row with the status of the given text, and a revision with the given reason |
| Effects.DeletionAnswer | backend/internal/service/priority_decision.go:140-152 | a deletion alone: refused, or only the mark on the row |
| Effects.CommitWrites | backend/internal/repository/priority_decision.go:59-84 | every commit of every run writes fields, status, version, time, revision reason, actor, request id and snapshot as its request and its snapshot say |
| Effects.AuditIsOwed | backend/internal/service/priority_decision.go:151 | every audit entry names actor, request, type, record, states and detail of its commit, with the defaults for empty ones |
| Effects.RefusedCallLeaves | backend/internal/service/priority_decision.go:70-86 | a refused service call leaves table and log alone and says why |
| Effects.AcceptedCallLeaves | backend/internal/service/priority_decision.go:101-105 | a successful one leaves what the request does alone and its audit entry, and reports the row |
| Invariants.RunKeepsInv | backend/internal/service/priority_decision.go:70-152 | in every interleaving of any clients: the table is in order, held snapshots are past states of their rows, commits to a record form one chain |
| Invariants.CommitEffect | backend/internal/repository/priority_decision.go:69-84 | a commit changes one row, all or nothing, to what its request planned, and appends exactly its revision |
| Invariants.StepEffect | backend/internal/service/priority_decision.go:101-103 | a step either commits its request or leaves rows and revisions as they were, so failed requests change neither |
| Invariants.RevisionIndexNeverRefuses | backend/internal/model/priority_decision.go:34-35 | the unique (decision, version) index refuses no write of any run |
| Discipline.GuardsSawTheRowIff | backend/internal/service/priority_decision.go:95-101 | when an edit or status change succeeds, its guards saw the overwritten row if and only if the version read is the version named |
| Discipline.DisciplinedCommitSawTheRow | backend/internal/service/priority_decision.go:70-138 | in a run in which every named version had been observed, the guarded snapshot equals the overwritten row in every field |
| Discipline.DisciplinedStartNames | backend/internal/service/priority_decision.go:70-138 | in such a run every edit and status change that succeeds names the version it read, so what is stated of runs that do holds of disciplined clients |
| SerialEquivalence.NamedVersionsAreSerial | backend/internal/service/priority_decision.go:70-152 | whatever clients do, if the successful edits and status changes named the versions they read, the final rows and revisions are those of the successful requests run alone in commit order, all succeeding, iff no decision was deleted late; otherwise they differ in those deletion marks only |
| SerialEquivalence.InterleavingIsSerial | backend/internal/service/priority_decision.go:70-152 | the same of every interleaving of disciplined clients |
| SerialEquivalence.CyclicEntitiesAreSerial | backend/internal/service/defect_finding.go:64-123 | bridges, inspections and defects have no such exception |
| Linearization.FailureHasItsPoint | backend/internal/service/priority_decision.go:70-152 | whatever clients do, a request refused when it began or when it wrote fails alone too (with some error) on the table of that point, and changes nothing |
| Linearization.SuccessHasItsPointIff | backend/internal/service/priority_decision.go:70-152 | a successful request that named the version it read, run alone at the point of its commit, leaves the table it left, iff it deleted no decision late |
| Witnesses.GuessedVersionUndoesFinal | backend/internal/service/priority_decision.go:95-101 | without the discipline a final decision becomes a draft again, for every valid decision |
| Witnesses.DeletionOvertakesFinal | backend/internal/service/priority_decision.go:140-152 | with it, a deletion that read the draft still deletes the final decision, which run alone is refused |
| Evolution.RunMovesOn | backend/internal/repository/base.go:59-70 | over any stretch of any run a record only moves on: one state per version, id, code and preparer kept, revisions only appended |
| Evolution.NoUpdateIsLost | backend/internal/repository/base.go:59-70 | an edit or status change that succeeds overwrites exactly what its client saw at the named version |
| Evolution.DeletionIsForever | backend/internal/repository/base.go:72-81 | after a deletion nothing reads or writes the record, and row and revisions survive unchanged |
| Evolution.CodesIdentify | backend/internal/model/base.go:13 | stored codes, deleted rows included, stay canonical, pairwise distinct and constant |
| Evolution.NoTwoCreatesShareCode | backend/internal/service/priority_decision.go:49 | two creates whose codes agree up to case and space never both succeed |
| Decisions.FinalIsForever | backend/internal/service/priority_decision.go:75-77 | once final, a decision's record and revisions do not change while edits and status changes name the version they read |
| Decisions.DisciplinedKeepFinal | backend/internal/service/priority_decision.go:75-77 | so they change in no disciplined run |
| Decisions.FinalYieldsOnlyToGuesses | backend/internal/service/priority_decision.go:120-131 | without the discipline, only a request naming a version newer than it read overwrites a final decision |
| Guesses.UndoesFinalIffGuessed | backend/internal/service/priority_decision.go:95-101 | from any reachable state, an edit or status change that passes its guards can later come to overwrite a final decision if and only if it names a version newer than the row it read |
| Guesses.GuessComesTrue | backend/internal/service/priority_decision.go:95-101 | from any reachable state with a live draft below the version a waiting request names, disciplined requests of others lead to that request overwriting a final decision |
| Guesses.CommitsIffVersionMatches | backend/internal/repository/priority_decision.go:69-84 | a waiting edit or status change succeeds exactly on a live decision at the version it names, final or not |
| Decisions.RevisionsAreDraftsThenFinal | backend/internal/service/priority_decision.go:120-131 | revision statuses are draft repeated, then at most one final status, in runs whose writes named the version they read |
| Decisions.SeedsAreDraftsThenFinal | backend/internal/database/database.go:234-246 | the seeded decisions have such revisions |
| Decisions.RevisionsAreGapFree | backend/internal/repository/priority_decision.go:59-84 | the revisions of a decision are versions 1 to Version, once each, the last with the row's status and evidence |
| Decisions.SnapshotsReplay | backend/internal/service/priority_decision.go:165-176 | the snapshot of revision v is the record as it was whenever it was at a version v written in the run (id not yet assigned for v = 1) |
| Decisions.DutiesAreSeparate | backend/internal/service/priority_decision.go:113-118 | the first actor is the preparer and a final decision's last actor is somebody else, for decisions created since and for those of which it held at first; revisions written in the run come from preparer or admin while draft, from another reviewer or admin when final |
| Decisions.SeedsAreSeparate | backend/internal/database/database.go:234-246 | the seeded decisions satisfy that at first |
| Deletions.DeletedFinalWasReadBefore | backend/internal/service/priority_decision.go:145-148 | in any run, a decision that ends up deleted and final was read as a draft by its deletion, then finalized, then deleted, in this order of steps |
| Deletions.DeletionRemovesFinalIff | backend/internal/service/priority_decision.go:145-148 | in runs whose writes named the version they read, a deletion that began at one step and is committed at another removes a final decision if and only if a finalization is committed between the two |
| Deletions.WaitingDeletionMayDeleteFinalIff | backend/internal/service/priority_decision.go:145-148 | from any reachable state, disciplined clients can bring a waiting deletion to delete a final decision if and only if the decision is live |
| Deletions.OnlyDraftsAreDeletedAlone | backend/internal/service/priority_decision.go:140-152 | when requests run one at a time, every decision deleted since the first table is a draft |
| Decisions.EditSucceedsIff | backend/internal/service/priority_decision.go:70-106 | exactly when an edit run alone succeeds |
| Decisions.FinalizationSucceedsIff | backend/internal/service/priority_decision.go:108-138 | exactly when a finalization run alone succeeds |
| Decisions.DeletionSucceedsIff | backend/internal/service/priority_decision.go:140-152 | exactly when a deletion run alone succeeds: of drafts only |
| Validation.RecordsAreFilled | backend/internal/service/priority_decision.go:158-163 | no run stores a record with a required text blank or untrimmed |
| Walks.StatusesAreWalks | backend/internal/service/defect_finding.go:64-112 | in runs whose writes named the version they read, a record's statuses are a walk of its graph, edits staying put, and its version counts changes and edits |
| Walks.VersionCoversDistance | backend/internal/service/bridge_asset.go:92-112 | in such runs version is at least the first version plus the distance from the first status; for created records 1 + distance from the initial one |
| Audits.NoEntryIsInvented | backend/internal/service/security.go:58-73 | entries map injectively to earlier commits with the same actor, request, record and action |
| Audits.AloneIsExecute | backend/internal/service/priority_decision.go:108-138 | a request nobody interrupts has exactly the effect of one read, one guard check and one write on the same table |
| Audits.TrailReplaysStatus | backend/internal/service/priority_decision.go:134-136 | when requests run one at a time and no append fails, a record's transition entries lead edge by edge from its first to its present status |
| Counts.CountsSumToTotal | backend/internal/repository/base.go:90-94 | the counts of the grouping query's rows add up to the number of live rows |
| Counts.CountsAreConserved | backend/internal/service/bridge_asset.go:92-123 | over such runs a status's count moves by one per creation, arrival, departure and deletion, and by nothing else |
| Store.NormalizePage | backend/internal/repository/base.go:102-113 | a page number at least 1 and a size in range are kept, else 1, 20 or 100 |
| Store.RecordStore.Get | backend/internal/repository/base.go:49-53 | the row if it is not deleted |
| Store.RecordStore.Create | backend/internal/repository/base.go:55-57 | a fresh row, or a refusal if the code is taken |
| Store.RecordStore.Update | backend/internal/repository/base.go:59-70 | the conditional write: a live row at the expected version, id and code kept, else a conflict and no change |
| Store.RecordStore.Delete | backend/internal/repository/base.go:72-81 | marks a live row deleted, else not found |
| Store.RecordStore.List | backend/internal/repository/base.go:29-47 | the number of the live rows the filter keeps, and the asked stretch of them, newest first, of equally new ones the larger id first |
| Store.RecordStore.CountByStatus | backend/internal/repository/base.go:83-100 | the statuses that occur among live rows, each with its number |
| Store.CountIsFilteredTotal | backend/internal/repository/base.go:29-47 | a status's count is the total of the listing filtered by it |
| Store.CountsAddUp | backend/internal/repository/base.go:83-100 | the counts in the map CountByStatus returns add up to the total of the unfiltered listing |
| Paging.PagesPartition | backend/internal/repository/base.go:43-46 | the pages up to ceil(total/size) put together are the filtered rows in order, each once; later pages are empty |
| Paging.RankingIsUnique | backend/internal/repository/base.go:44 | newest first with ties by larger id leaves one order |
| Paging.BoundsCompose | backend/internal/handler/system.go:149-159 | the handler keeps bounds in range and puts 1 and 20 for others; after that the repository's bounds change nothing |
| DecisionRepository.Repository.Get | backend/internal/repository/priority_decision.go:52-58 | a live decision with its revisions in version order |
| DecisionRepository.Repository.CreateWithRevision | backend/internal/repository/priority_decision.go:59-68 | row and first revision, or neither |
| DecisionRepository.Repository.UpdateWithRevision | backend/internal/repository/priority_decision.go:69-84 | conditional row write and revision, or neither |
| DecisionService.Service.Save | backend/internal/service/priority_decision.go:97-103 | the write of an edit or finalization on whatever the table has become is the write a commit step makes |
| DecisionService.Service.Create | backend/internal/service/priority_decision.go:43-68 | table, log and reply are those of the request run alone |
| DecisionService.Service.Update | backend/internal/service/priority_decision.go:70-106 | the same for an edit |
| DecisionService.Service.Transition | backend/internal/service/priority_decision.go:108-138 | the same for a finalization; a lost audit entry is reported as failure though the write stays |
| DecisionService.Service.Delete | backend/internal/service/priority_decision.go:140-152 | the same for a deletion |
| RecordService.Service.Save | backend/internal/service/defect_finding.go:85-87 | the write of an edit or status change on whatever the table has become is the write a commit step makes |
| RecordService.Service.Create | backend/internal/service/defect_finding.go:42-62 | table, log and reply are those of the request run alone, for the three cyclic entities |
| RecordService.Service.Update | backend/internal/service/defect_finding.go:64-90 | the same for an edit |
| RecordService.Service.Transition | backend/internal/service/inspection_round.go:92-112 | the same for a status change |
| RecordService.Service.Delete | backend/internal/service/bridge_asset.go:114-123 | the same for a deletion |
| AuditLog.AuditStore.Audit | backend/internal/service/security.go:58-73 | one entry with empty actor and request replaced, or a refusal and no entry |
| AuditLog.SummaryIsMonotone | backend/internal/repository/security.go:62-90 | whatever is appended between the queries: Total <= sum(Actions) <= sum(EntityTypes), Transitions <= Actions["transition"], UniqueActors <= sum(Actions) |
| AuditLog.QuietSummaryIsExact | backend/internal/repository/security.go:62-90 | when nothing is appended the totals are equal and Transitions is the transition group |
| AuditLog.SummaryCountsEntries | backend/internal/repository/security.go:67-89 | each figure counts the entries, in the log its query found, made at or after the given time: all, transitions, actors, and those of each action and entity type, largest groups first |
| AuditLog.AuditStore.SummarizeAudits | backend/internal/repository/security.go:62-90 | the five queries, with appends in between, give the summary those results speak of, groups by descending count |
| Windows.AnswerIsHistoryIff | backend/internal/middleware/ratelimit.go:71-94 | for any calls and clock, a call is answered one plus the earlier calls with its key in its window if and only if, since the first of these, no call used the key in another window and no eviction was made for a later window; else less |
| Windows.AnswerIsHistory | backend/internal/middleware/ratelimit.go:71-83 | so it is whenever no window comes back after a different one |
| Windows.ForwardClockAnswersHistory | backend/internal/middleware/ratelimit.go:71-83 | in particular for windows that never go back |
| Windows.AnswersAreHistoryIff | backend/internal/middleware/ratelimit.go:71-83 | with fewer keys than start eviction, all calls of a run are answered from history if and only if no key comes back to a window after another |
| Windows.ReturningLosesCounts | backend/internal/middleware/ratelimit.go:77-79 | a clock that goes back a minute and returns loses a count: one such run for each key |
| Windows.CleanupLeavesCurrent | backend/internal/middleware/ratelimit.go:85-94 | when eviction runs it leaves only buckets of the current window, or of later ones if the clock had been ahead |
| Windows.MemoryIsBounded | backend/internal/middleware/ratelimit.go:71-94 | after every call at most max(512, keys seen in the window, or in a later one if the clock had been ahead) keys are tracked |
| Admission.RedisCountsAll | backend/internal/middleware/ratelimit.go:61-68 | the two-minute expiry never drops a count inside its own minute |
| Admission.LastIsCounted | backend/internal/middleware/ratelimit.go:57-83 | a request is counted one plus the earlier ones of its key and calendar minute at its backend |
| Admission.AdmissionPerMinute | backend/internal/middleware/ratelimit.go:37-83 | at most twice the limit per key and minute pass; at most the limit if for that key and minute memory counts nothing or Redis answers nothing |
| Admission.AdmissionPerInterval | backend/internal/middleware/ratelimit.go:37-83 | at most 2 * limit * (k + 1) in any half-open k-minute interval |
| Admission.AdmissionBoundIsMet | backend/internal/middleware/ratelimit.go:37-55 | twice the limit is reached |
| Limiter.RateLimiter.CleanupLocal | backend/internal/middleware/ratelimit.go:85-94 | deleting old buckets one by one is the eviction of the specification |
| Limiter.RateLimiter.IncrementLocal | backend/internal/middleware/ratelimit.go:71-83 | buckets and answer are those of the specification |
| Limiter.RateLimiter.Increment | backend/internal/middleware/ratelimit.go:57-69 | the Redis counter of the minute and key, its expiry renewed to two minutes, and whether the count came back |
| Limiter.RateLimiter.Middleware | backend/internal/middleware/ratelimit.go:37-55 | a request is counted under its own key by Redis, or in memory when that does not answer, and passes exactly when with the earlier ones of its key and minute there it is within the limit; the remaining allowance |
| Limiter.LimiterIsBounded | backend/internal/middleware/ratelimit.go:37-83 | a limiter's whole history obeys the admission bound, and its buckets are those of its local calls |

## Left out

- Runs are of one entity's table with its own audit entries: the four tables share no rows, and entries of other entities only come in between.
- Text functions are over ASCII: Unicode spaces, case mapping and the Greek final sigma of upper-casing are not modelled.
- Statuses are an enumeration and a request's text is looked up in it; business fields are plain values, metric values reals, instants integers.
- A snapshot is a copied record, not its JSON text, and carries no timestamps; seeded revisions have arbitrary snapshots.
- Evolution.CodesIdentify: codes are compared as stored; a database collation that ignores case or trailing space would refuse more.
- Admission.AdmissionPerMinute: assumes one process, no loss of Redis data, a local clock that does not come back to a minute after another, and increments executed in Redis at most a minute after the end of the minute that names them.
- Admission.AdmissionPerInterval: places a request at the clock reading that chose its counter; the reset and retry headers are not modelled.
- Store.RecordStore.List: the filter is an arbitrary predicate, standing for the status filter and the LIKE search.
- AuditLog.AuditStore.SummarizeAudits: of groups with equal counts the one that occurs first is listed first, where the database may choose.
- Limiter.RateLimiter.Middleware: the whole request is one method; the interleaving of requests is in the traces of module Admission.
- The imperative services run one request at a time, except that `Save` is proved for any table; interleavings are those of module Protocol, whose steps use the same guard and write functions.
- A database failure or a cancelled request is a request that stops (`Abort`), with its transaction undone.
- Version and id are natural numbers; wrap-around of machine integers is not modelled.
- Login, tokens, route roles, request-id normalization, configuration, HTTP envelopes, audit listing and entity history, the frontend: they would add easy members.
- Seeding of users, bridges, inspections and defects.
