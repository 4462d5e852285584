# Jawafdehi cases: what a case write keeps

A Dafny model of how a case of the Jawafdehi platform changes, and proofs of what every change
keeps. `dafny verify dfyconfig.toml` checks the whole project.

A case is one row and four joins (entity binds, evidence, dockets, authors) plus a log of its
transitions. It is written by JSON Patch requests guarded by a version token (If-Match, section
3.1 of RFC 7232), by approved update proposals, by model saves and by a soft delete. Two stores
are derived from it: the visibility of the materials it cites, and the history of the slugs it
had. The command-line clients read a case, compute a whole list and send it back.

| files | part of the system |
|---|---|
| `TextDates`, `Stages` | dates as text; the stage list, its validation, its two derived dates, the deprecated pair of dates |
| `CaseStages`, `DocketPatch` | the merge of court dockets into a stage list, and that merge as a PATCH |
| `Cases`, `CaseRow`, `CaseLaws`, `Lifecycle` | one case: what each write computes, the object that does it field by field, what every run keeps, the derived status |
| `Serializability` | many clients of one case: unlocked reads, the row lock, the token check under it |
| `Proposals` | staging, editing and deciding update proposals, interleaved |
| `SlugHistory`, `Visibility` | the two derived stores |
| `EventBus` | the connection to the event bus: threads, lock, clock, fork |
| `Binder`, `Batches` | the evidence binder and its batch selection |
| `Tags`, `AuthorSlug` | the tag graph; the slug of an author |

Conventions. A date is the text the document holds; "" stands for an absent key, a null and the
empty string alike. An IRI is opaque. A version token is the version number it is made from: a
hash taken as injective. JSON Patch with the field validators is one function from the snapshot
to the validated document. A concurrent protocol is a step function over a world, and a schedule
is any sequence of steps; each operation that the source runs step by step is a method proved
against the function the protocol uses. A permission check is its accept or refuse.

## What the proofs found

Each of these is a property the code does not have on all inputs, with the exact condition.

- The docket merge compares dates as text while the server reads four spellings of a day: two by
  the calendar, two by the ISO week. Text order misjudges exactly the pairs of
  `TextDates.MisjudgedExactly`. A stage that keeps such a half against a docket's other half is
  written and refused by the server (`CaseStages.MergeCanBeRefused`,
  `CaseStages.MergeCanBeRefusedOverAStart`); nothing else is (`CaseStages.MergeIsAccepted`).
- The slug gate of a PATCH looks at op paths, so an op that replaces the whole document passes it
  (`CaseLaws.WholeDocumentOpRenames`, `CaseLaws.SlugGateIsExact`).
- `save` writes no log row, so one that assigns another state than CLOSED breaks the workflow log
  (`CaseLaws.AttemptMoves`).
- If-Match protects a PATCH exactly when the header admits one version
  (`Serializability.LockedCheckIsExact`); a wildcard or a second listed version does not.
- A recompute that starts while one of the same material is about to write an old tier can leave
  it stale (`Visibility.OverlappingRecomputesEndStale`, `Visibility.UnsafeBeginCanEndStale`); any
  other start is safe (`Visibility.BeginIsSafeExactlyWhen`).
- A case created with a retired slug puts a live slug into the history
  (`SlugHistory.CreationIsSoundExactlyWhenFresh`). Saving an instance loaded before a re-slug can
  forget a slug (`SlugHistory.SaveRemembersExactlyWhen`), leave the slug it writes back in the
  history although it is live again, or record a slug that another case has taken over
  (`SlugHistory.SaveIsSoundExactlyWhen`). A bulk update that fills a blank slug with a retired one
  puts a live slug into the history (`SlugHistory.BulkIsExactIffFresh`).
- A child forked while a connect is begun and unrecorded, or while the lock is held, never
  connects (`EventBus.ForkedChildConnectsExactlyWhen`).
- The one-level rule of tags is checked upwards only (`Tags.OneLevelKeptExactlyWhen`), and after a
  merge into a tag on a merge cycle the two aliases resolve differently
  (`Tags.MergedAliasResolvesAlikeExactlyWhen`).
- A deprecated date written onto a case without a first instance and then blanked leaves an empty
  stage (`Stages.LaterLegacyWriteWins`).

Two places where the code and its own comments disagree; the model follows the code. A negative
`limit` of `select_batch` selects nothing (casework/select_batch.py:76 says no cap). A `--drop`
with an empty value matches rows that lack the column (casework/select_batch.py:66 says never).

## Model

| member | source | states |
|---|---|---|
| TextDates.DashedOrder | cases/stages.py:56-66 | two `YYYY-MM-DD` texts compare as text exactly as their days compare |
| TextDates.SameSpellingOrder | cases/stages.py:56-66 | texts of one of the four spellings the reader knows that sort in order carry readings in order, a week without its day sorting before its Monday included |
| TextDates.ReadingOrder | cases/stages.py:56-66 | two calendar dates, or two week dates, compare by their digits exactly as their days do |
| TextDates.DifferentSpellingOrder | casework/case_stages.py:72-78 | texts of different spellings sort by year and within a year by spelling, whatever the days |
| TextDates.MisjudgedExactly | casework/case_stages.py:72-78 | for any two readable texts: the text comparison accepts a pair of days out of order exactly when the spellings differ and the one that sorts first names the later day |
| TextDates.EveryDayIsReadInEverySpelling | cases/stages.py:56-66 | each day from the first of year 1 to the last of year 9999 has a text in each of the four spellings that is read back as it |
| TextDates.ReadTextsAreDays | cases/stages.py:56-66 | every text that is read names one of those days |
| Stages.ValidateStages | cases/stages.py:69-161 | accepts a list exactly when every record obeys every rule; otherwise names the first bad record and the first rule it breaks |
| Stages.ValidRecordExactly | cases/stages.py:69-161 | the rules of one record together: known keys and kind, a label exactly on `other`, readable dates in order, a bound docket or none, texts within 500, 200 and 200 |
| Stages.ValidIsMonotone | cases/stages.py:69-161 | an accepted list is all objects, and binding more dockets never makes it unacceptable |
| Stages.DerivedProceedingDates | cases/stages.py:164-203 | one pass returns the pair that is the earliest court start and the latest court end, no end while a court stage is open |
| Stages.DerivedIsUnique | cases/stages.py:164-203 | that description determines the pair |
| Stages.DerivedIgnoresOrder | cases/stages.py:164-203 | reordering the list changes neither date |
| Stages.DerivedDatesOfValidStages | cases/stages.py:164-203 | for accepted lists: no decided date exactly when there is no court stage or one is open; no court stage means no dates; started is never after decided |
| Stages.ApplyLegacyDate | cases/stages.py:225-262 | writes one deprecated date onto the only first instance, creates one, or refuses; non-objects drop out |
| Stages.LegacyWriteRefuses | cases/stages.py:225-262 | a known date is refused exactly when two first instances exist |
| Stages.LegacyWriteIsRead | cases/stages.py:206-262 | what was written is read back, the other half and all other records are as before, and at most one record is added |
| Stages.LegacyWritesCommute | cases/stages.py:225-262 | start and end can be written in either order with the same result |
| Stages.LaterLegacyWriteWins | cases/stages.py:225-262 | a second write overrides the first exactly unless the first created the stage and the second blanks it |
| CaseStages.EndIsTheLatestDecision | casework/case_stages.py:21-45 | the deciding hearing is one with the latest day, wherever it stands in the list; none exactly when no hearing decides |
| CaseStages.TrialStageIsFromCourt | casework/case_stages.py:30-63 | a record with court dates proposes a docket with court dates |
| CaseStages.TrialStageExactly | casework/case_stages.py:21-63 | the docket of a record carries its registration and the day of its latest dated decision, or the date in the status when no decision is dated |
| CaseStages.TrialDocketsAreBound | casework/court_record.py:189-211 | the dockets a case proposes cite its own references, stripped, none twice, and each carries a date |
| CaseStages.TrialDocketsExactly | casework/court_record.py:189-211 | a case proposes a docket for exactly those references that are trials, can be read and carry a date |
| CaseStages.TrialDocketsInOrder | casework/court_record.py:189-211 | the dockets come in the order of the references |
| CaseStages.Apply | casework/case_stages.py:131-164 | writes the halves of a docket that survive the inversion check |
| CaseStages.OnlyAnInvertingHalfIsDropped | casework/case_stages.py:94-164 | both halves are written when they can stand; otherwise exactly which half survives, and none is dropped that could have stood |
| CaseStages.RefusedExactly | casework/case_stages.py:94-128 | which halves a merge reports as refused: none unless the docket changes the stage into an inverted pair, then the changed end or else the start, and the other unless it can stand |
| CaseStages.AppliedIsSettled | casework/case_stages.py:94-164 | applying a docket twice is applying it once: a refused half stays refused |
| CaseStages.AppliedIsValid | casework/case_stages.py:94-164 | a written stage keeps valid dates exactly when the docket does not overtake the half that is kept, start or end |
| CaseStages.MergeTrialStages | casework/case_stages.py:167-200 | the loop computes the merge: matched stage first, then the adopted one, then a new record |
| CaseStages.MergeIsAccepted | casework/case_stages.py:167-200 | the server accepts the merged list, whatever inverted pairs the dockets carry, exactly when no docket overtakes its stage |
| CaseStages.TrialMergeIsAccepted | casework/case_stages.py:167-200 | with the stored starts and ends in the courts' spelling, the merge of a case's own trial dockets is always accepted |
| CaseStages.MergeCanBeRefused | casework/case_stages.py:94-128 | a stored end 20250301 and a docket registered 2025-06-01 merge into a list the server refuses |
| CaseStages.MergeCanBeRefusedOverAStart | casework/case_stages.py:94-128 | a stored start 2026-W53-7, which is 2027-01-03, and a docket decided 2027-01-02 merge into a list the server refuses |
| CaseStages.MergeKeepsTheCase | casework/case_stages.py:167-200 | every record keeps its place, kind and text; no date is removed; only the adopted stage gains a docket; every docket ends up cited; the list grows by exactly the unplaced ones |
| CaseStages.OneDocketIsAdopted | casework/case_stages.py:81-91 | one docket no record cites goes to the first first instance without a docket; the list does not grow and no other record changes |
| CaseStages.OtherwiseNothingIsAdopted | casework/case_stages.py:81-91 | with several dockets, a cited one, or no such stage, no record without a docket changes and the list grows by exactly the dockets no record cites |
| CaseStages.MergeAppendsOnlyDockets | casework/case_stages.py:167-200 | each added record is the first instance of one docket, its end dropped when it precedes its start |
| CaseStages.MergeIsIdempotent | casework/case_stages.py:167-200 | merging the same dockets again changes nothing |
| DocketPatch.MergePatchIsAcceptedExactlyWhen | cases/api_views.py:1480-1520 | sent as a PATCH of a consistent case the merge is refused only over its stages and exactly under that condition; accepted, it leaves joins and workflow alone and re-merging is a no-op |
| CaseRow.CaseInstance.constructor | cases/models.py:1288-1291 | a loaded instance holds the stored case and remembers its slug |
| CaseRow.CaseInstance.RewriteEntityBinds | cases/api_views.py:1109-1178 | the rewritten list is the submission in order, or the old list when a key repeats |
| CaseRow.CaseInstance.WriteMaterialReferences | cases/api_views.py:860-875 | evidence becomes the submitted list with ordinals in order; a repeated IRI is refused |
| CaseRow.CaseInstance.SyncCourtCases | cases/models.py:1326-1354 | dockets become the submitted list in order; a repeat is refused |
| CaseRow.CaseInstance.SyncAuthors | cases/models.py:1395-1422 | the byline becomes the submitted accounts, first mention kept |
| CaseRow.CaseInstance.Save | cases/models.py:1593-1664 | a save of an edited or stale instance names a blank slug, validates the stages against the pending dockets, refreshes both dates, freezes the slug outside DRAFT, makes the version fresh and writes both pending joins |
| CaseRow.CaseInstance.AssignCourtCases | cases/models.py:1311-1324 | the setter leaves the references pending, first mentions in order |
| CaseRow.CaseInstance.Validate | cases/models.py:1666-1738 | the public states need a non-location subject, an author and a publish date |
| CaseRow.CaseInstance.Move | cases/models.py:1740-1812 | submit, publish, close and revert move the state or refuse, as specified |
| CaseRow.CaseInstance.ApplyStateTransition | cases/api_views.py:1305-1363 | the move and its log row come together |
| CaseRow.CaseInstance.LegacyDates | cases/api_views.py:1464-1478 | the deprecated date paths are transformed onto the stage list, start before end |
| CaseRow.CaseInstance.UpdateScalars | cases/api_views.py:1507-1542 | the bulk update writes submitted scalars and always both derived dates and the version |
| CaseRow.CaseInstance.WriteJoins | cases/api_views.py:1265-1303 | each join is written only when an op targets it |
| CaseRow.CaseInstance.CommitPatch | cases/api_views.py:1418-1580 | the transaction commits what the specification says or leaves the case untouched |
| CaseRow.CaseInstance.RejectBlockedPaths | cases/api_views.py:1054-1090 | the op loop rejects exactly a blocked path, a frozen slug or a state op that is not a replace |
| CaseRow.CaseInstance.PartialUpdate | cases/api_views.py:1365-1580 | a whole PATCH: gates, patch, transaction; a refusal changes nothing |
| CaseRow.CaseInstance.SoftDelete | cases/api_views.py:1610-1647 | a delete closes the case through save and logs no transition |
| CaseRow.CaseInstance.AppendTimelineEntry | case_proposals/apply.py:132-143 | one entry at the end of the timeline and a fresh version, or a refusal |
| CaseRow.CaseInstance.LinkMaterialReference | case_proposals/apply.py:146-171 | a new material goes after the existing evidence; a bound one changes nothing |
| CaseRow.CaseInstance.RawPatchFields | case_proposals/apply.py:174-201 | only the allowed columns are seen or written; a patch that leaves none of them writes nothing |
| CaseRow.CaseInstance.ResolveOutcomes | case_proposals/apply.py:221-277 | the first bad entry decides the refusal, before anything is written |
| CaseRow.CaseInstance.WriteOutcomes | case_proposals/apply.py:279-297 | the resolved verdicts are written in order; `changed` says whether any differed |
| CaseRow.CaseInstance.SetEntityOutcome | case_proposals/apply.py:221-297 | all verdicts or none, and a fresh version only when one changed |
| CaseRow.CaseInstance.ApplyIntent | case_proposals/apply.py:106-129 | any intent is applied as specified or leaves the case untouched |
| CaseLaws.DatesStayConsistent | cases/models.py:1593-1664 | after every run of PATCHes, deletes, approvals and saves of any instance, stages edited and dockets pending included, each stage cites a docket of the case and the stored dates are the derived ones |
| CaseRow.CreateCase | cases/api_views.py:736-838 | a creation, with or without a slug, returns a fresh saved draft with its joins, or refuses |
| CaseRow.CaseInstance.CreateBinds | cases/api_views.py:807-823 | each id is bound once in its role, ordinals running on |
| CaseLaws.CreatedIsConsistent | cases/caseworker_serializers.py:559-588 | a created case starts consistent, in DRAFT with an empty log; deprecated dates sent without stages are read back as its first instance |
| CaseLaws.StagesAreJudgedByTheRequest | cases/api_views.py:1480-1504 | a PATCH is refused over its stages exactly when those it asks for do not fit the dockets it asks for |
| CaseLaws.StagesNeverBlockATransition | cases/api_views.py:1487-1494 | a case that saved is never refused a later transition over its stages |
| CaseLaws.MoveSucceedsExactlyWhen | cases/models.py:1740-1812 | a move succeeds exactly when the workflow allows it, a public state finds a subject, an author and a date, and a changed slug ends in DRAFT; then the state, the log row and the version are as asked |
| CaseLaws.PatchIsAcceptedExactlyWhen | cases/api_views.py:1365-1580 | a PATCH is accepted exactly when the case is open, the gate and the validators let it through, its dates find one first instance, its stages fit its dockets, its lists are there without repeats and its transition is allowed |
| CaseLaws.PatchIsRefusedFor | cases/api_views.py:1365-1580 | the reply to a refused PATCH is the first thing wrong with it, in the order of the checks |
| CaseLaws.GateRefusesExactly | cases/api_views.py:1054-1090 | the gate refuses exactly a state op that is no replace, a slug outside DRAFT, and the seven blocked paths and what is below them |
| CaseLaws.LegacyDatesReachTheStages | cases/api_views.py:1452-1478 | each deprecated date a PATCH targets is read back off the stages it asks for, and the other is as before |
| CaseLaws.SaveSucceedsExactlyWhen | cases/models.py:1593-1664 | a save of any instance succeeds exactly when its stages fit the pending or stored dockets and its slug is the loaded one or the case a DRAFT; then row and joins are the assigned ones, named, derived and freshly versioned |
| CaseLaws.DeleteSucceedsExactlyWhen | cases/api_views.py:1610-1647 | a delete closes exactly an open case whose stages still fit, and changes no join and no log |
| CaseLaws.IntentsReachOnly | case_proposals/apply.py:31-47 | no approved intent reaches state, slug, stages, dockets, authors, log or a column outside the allow-list; an equal version means nothing changed |
| CaseLaws.IntentIsAppliedExactlyWhen | case_proposals/apply.py:106-277 | the acceptance condition of each type of intent |
| CaseLaws.IntentIsRefusedFor | case_proposals/apply.py:221-277 | verdicts are refused for their first faulty entry, by what is wrong with it; any other intent as malformed |
| CaseLaws.IntentIsReadBack | case_proposals/apply.py:132-297 | what an applied intent leaves to be read: the entry last, the material last under its relation, the patched view and nothing beside it, and a fresh version with every change |
| CaseLaws.RawViewShowsTheAllowed | case_proposals/apply.py:31-47 | a raw patch sees exactly the timeline and the seven allowed columns |
| CaseLaws.PatchIsReadBack | cases/api_views.py:1365-1580 | what an accepted PATCH asked for is what the next snapshot shows, transition included; untouched lists and fields are as before |
| CaseLaws.UneditedPatchChangesNothing | cases/api_views.py:1649-1732 | sending back the snapshot as it was read changes nothing but the version |
| CaseLaws.WorkflowOfEveryRun | cases/api_views.py:1305-1363 | over every run whose saves leave the state alone or close the case, the log is a connected path of allowed moves from DRAFT, the state is where it ends or CLOSED, CLOSED is never left, and entering a public state stores a subject, an author and a date |
| CaseLaws.AttemptMoves | cases/models.py:1593-1664 | a write is a workflow step exactly when it is refused or is no save that assigns another state than CLOSED |
| CaseLaws.ReslugNeverLeavesDraft | cases/models.py:1631-1639 | a PATCH that re-slugs a draft and is accepted leaves it a draft |
| CaseLaws.SlugFixedOutsideDraft | cases/api_views.py:1070-1081 | outside DRAFT no write changes the slug, given no op that replaces the document and no save that is stale or puts the case back to DRAFT |
| CaseLaws.WholeDocumentOpRenames | cases/api_views.py:1054-1090 | an op that replaces the whole document (add, replace, move or copy with the empty path) passes the gate and renames a published case |
| CaseLaws.SlugGateIsExact | cases/api_views.py:1054-1090 | an ops list keeps the slug of every published case exactly when no op replaces the whole document or the gate refuses it anyway; tests and removals of the root keep it |
| CaseLaws.RewriteStoresTheSubmission | cases/api_views.py:1109-1178 | on any stored list the table permits: submitted binds in order, ordinals from 0, a verdict exactly on the accused, an omitted verdict kept if one is stored, a null reset to charged |
| CaseLaws.RewriteWithOwnSnapshot | cases/api_views.py:1695-1703 | rewriting normalised binds with their own snapshot is the identity |
| CaseLaws.JoinsStayOrdered | cases/api_views.py:1265-1303 | every run keeps the four joins free of duplicates and in display order |
| CaseLaws.CreatedIsOrdered | cases/api_views.py:803-838 | every accused and related id is bound in its role, no docket is lost, and the joins start in order without repeats |
| CaseLaws.CreationIsAcceptedExactlyWhen | cases/api_views.py:736-838 | a creation is accepted exactly as a DRAFT whose stages fit its dockets and whose evidence repeats nothing, and refused for the first of these that fails |
| CaseLaws.CreationIsReadBack | cases/api_views.py:736-838 | it stores what was sent: columns, stages, evidence in order, authors, and only submitted binds, the accused charged |
| CaseLaws.LinkedKeepsOrder | case_proposals/apply.py:146-171 | a linked material comes last, whatever ordinals are stored, and no row is lost |
| Lifecycle.StatusAgreesWithDates | cases/models.py:1539-1591 | concluded exactly with a decided date and final verdicts for all accused; under investigation only without dates; an open court stage reads as ongoing and undecided |
| Lifecycle.StatusExactly | cases/models.py:1539-1591 | each status exactly: an override wins, an open court stage or a remanded accused is ongoing, closed court stages with all accused decided are concluded, an open investigation without a court stage is one, the rest are others |
| Lifecycle.SetOutcomesIsAllOrNothing | case_proposals/apply.py:221-297 | accepted exactly when every entry names a final verdict for a bound accused; then the listed ones have it and every other bind is untouched |
| Lifecycle.ApprovalsKeepVerdicts | case_proposals/apply.py:204-219 | over any run of approvals no bind leaves the final verdicts and a concluded case stays concluded |
| Serializability.IfMatchMatches | cases/api_views.py:239-257 | the header check matches a wildcard or the version listed, and an absent header matches anything |
| Serializability.ProtectedAdmitsOneVersion | cases/api_views.py:239-257 | a header matches at most one version exactly when it is a list without wildcard naming one version |
| Serializability.LockedCheckIsExact | cases/api_views.py:1418-1450 | the check under the lock makes a stale snapshot impossible exactly for such headers |
| Serializability.EveryScheduleIsSerial | cases/api_views.py:1365-1582 | in every interleaving of protected PATCHes, binders and approvals the stored case is the successful ones run alone in commit order, each on the version it named; each success is one commit |
| Serializability.EveryScheduleKeepsTheCase | cases/api_views.py:1365-1582 | every such interleaving keeps what sequential runs keep: derived dates and bound dockets, ordered joins, a connected log that only grows, and CLOSED for good |
| Serializability.OnlySuccessWrites | cases/api_views.py:1436-1450 | a step that is not a successful commit, a 412 among them, changes nothing stored |
| Serializability.LonePatchIsSequential | cases/api_views.py:1365-1582 | the steps of a PATCH with nothing else running are, under any header, its token check and then the sequential PATCH, reply included |
| Serializability.LockedCheckAnswersExactly | cases/api_views.py:1436-1450 | under the lock a PATCH is answered 412 exactly when its header no longer matches the stored version |
| Serializability.LoneApproval | case_proposals/apply.py:106-129 | an approval alone locks the case, applies its intent and answers for it |
| Serializability.LonePlan | casework/bind_materials.py:140-211 | a binder alone reads the row and the evidence and goes on as a PATCH of its plan under the version of that row, or ends there |
| Proposals.ProposalDesk.AlreadyStaged | case_proposals/job_kind.py:200-218 | finds a row with the key whatever was decided about it |
| Proposals.ProposalDesk.OnResult | case_proposals/job_kind.py:221-355 | a job result stages one pending row or records why not |
| Proposals.ProposalDesk.Decide | case_proposals/views.py:71-113 | a pending proposal is resolved with its case write, or neither happens; a decided one is a conflict |
| Proposals.ProposalDesk.EditIntent | case_proposals/views.py:147-175 | only a pending proposal's intent is replaced, and nothing else of it |
| Proposals.EachFactChangesACaseOnce | case_proposals/views.py:71-104 | in every interleaving: one proposal per key, decided at most once and frozen after, its stored intent applied once if approved and never otherwise, and the cases are what those applications make of the initial ones |
| Proposals.EveryReplyIsTrue | case_proposals/views.py:71-138 | in every interleaving each reply stays true: Decided left the proposal APPROVED or REJECTED as asked, a conflict met a decided one, a staged row is there under the task's key and case, a duplicate's key is taken |
| Proposals.RejectedFactIsNeverApplied | case_proposals/views.py:71-138 | a fact whose rejection was answered Decided is never applied, by any task at any time |
| Proposals.ResultIsAnsweredExactly | case_proposals/job_kind.py:221-355 | the exact condition of each reply to a job result, and the one pending row it may add |
| Proposals.DecisionSucceedsExactlyWhen | case_proposals/views.py:71-113 | a decision fails exactly when it approves what cannot be applied, with that reason; a rejection stores REJECTED and touches no case, an approval changes the one case by its intent |
| Proposals.UnfitIntentIsNeverApplied | case_proposals/serializers.py:6-44 | the shape check refuses only intents no case could take |
| Proposals.FactAppliedAtMostOnce | case_proposals/models.py:75-78 | two applied intents never come from the same key |
| Proposals.TimelineInDecisionOrder | case_proposals/apply.py:132-143 | with append intents only a timeline is the initial one followed by the approved entries in decision order |
| Proposals.RejectionIsSticky | case_proposals/job_kind.py:200-218 | a rejected fact is never staged again under another row and never applied |
| Proposals.UninterruptedDraft | case_proposals/job_kind.py:221-355 | the steps of a job result with nothing between them are the whole hook |
| Proposals.UninterruptedDecision | case_proposals/views.py:71-104 | the steps of a decision with nothing between them are the whole decision |
| Proposals.UninterruptedEdit | case_proposals/views.py:147-175 | the steps of an edit with nothing between them give a pending proposal the new intent, or refuse |
| Proposals.UninterruptedPost | case_proposals/views.py:56-64 | the steps of a creation by hand add one pending row, or nothing |
| Proposals.LateDuplicateIsCaught | case_proposals/models.py:75-78 | a validated row whose key was taken meanwhile is a duplicate at the insert |
| SlugHistory.SlugRegistry.Record | cases/models.py:2128-2144 | the retired slug points at the case, the new slug is in no row |
| SlugHistory.SlugRegistry.Create | cases/models.py:1641-1655 | a first save records nothing |
| SlugHistory.SlugRegistry.Save | cases/models.py:1631-1655 | a save writes slug and state and records the slug it was loaded with, or refuses |
| SlugHistory.SaveAgreesWithTheCase | cases/models.py:1631-1639 | with a slug no other row has, a save is refused for its slug exactly outside DRAFT with an edited one, here as in the save of the case |
| SlugHistory.SlugRegistry.BulkUpdate | cases/models.py:890-923 | the loop over changing rows records exactly the slug of the one row that changes |
| SlugHistory.SlugRegistry.Redirect | cases/api_views.py:877-927 | closed cases, drafts for the public and self-redirects are not followed; a case with a blank slug has no address to answer with |
| SlugHistory.HistoryIsExact | cases/models.py:2087-2144 | in every run of fresh actions, bulk updates to the blank slug included, no history row names a live slug, and a slug that is not live is in the history exactly if some case held it, pointing at the last one |
| SlugHistory.RedirectLeadsToLastHolder | cases/api_views.py:877-927 | a retired slug leads in one hop to the live slug of its last holder, exactly when the requester may see that case |
| SlugHistory.CreationIsSoundExactlyWhenFresh | cases/models.py:1641-1655 | a creation keeps history and live slugs apart exactly when its slug is not retired |
| SlugHistory.SaveIsSoundExactlyWhen | cases/models.py:1641-1655 | after any accepted save, stale or edited, no history row names a live slug exactly when an unedited slug is not retired, or the loaded slug of an edited one is held by no other case |
| SlugHistory.SaveRemembersExactlyWhen | cases/models.py:1641-1655 | any accepted save forgets no used slug exactly when the row's own slug is the one written, the one loaded, or blank |
| SlugHistory.FreshIsExact | cases/models.py:2128-2144 | freshness is exact for every creation, save and bulk update: an action keeps the history off the live slugs and retires each slug as it should just when it is fresh |
| SlugHistory.BulkIsExactIffFresh | cases/models.py:890-923 | a bulk update keeps the history exact unless it fills a blank slug with a retired one |
| SlugHistory.RefillGoesWrong | cases/models.py:2138-2144 | a slug blanked and filled again in bulk is live and in the history |
| SlugHistory.StaleSaveGoesWrong | cases/models.py:1641-1655 | a stale unedited save leaves its live slug in the history and forgets the one it overwrites |
| SlugHistory.StaleEditGoesWrong | cases/models.py:1641-1655 | a stale edited save records a slug another case holds and forgets the one it overwrites |
| Visibility.VisibilityForStates | materials/visibility.py:51-64 | the early-leaving loop returns the MAX over the states, PRIVATE for none |
| Visibility.MaxIsUnique | materials/visibility.py:51-64 | the MAX is the only tier some state confers, or PRIVATE, that no state exceeds |
| Visibility.VisibilityStore.ReferringCaseStates | materials/visibility.py:83-95 | exactly the states of the cases that cite the material |
| Visibility.VisibilityStore.VisibilityForPolicy | materials/visibility.py:67-80 | fixed tiers for the fixed policies, the MAX otherwise |
| Visibility.VisibilityStore.RecomputeMaterial | materials/visibility.py:98-117 | one material gets its tier, an absent one is left alone, no other changes |
| Visibility.VisibilityStore.RecomputeEach | cases/api_views.py:180-193 | the callback recomputes the listed materials in order |
| Visibility.VisibilityStore.RecomputeAll | materials/visibility.py:133-198 | every material gets its tier, and the count returned is that of the materials that were not at it |
| Visibility.WrittenExactly | cases/signals.py:50-103 | what each kind of write does to each case |
| Visibility.ScheduledExactly | cases/api_views.py:1241-1292 | which materials each kind of write schedules a recompute for |
| Visibility.RecomputedAllIsRight | materials/visibility.py:51-80 | after it a PRIVATE material is private and a PUBLIC one listed whatever cites it; any other is LISTED exactly with a published citer, UNLISTED exactly with one in review and none published, PRIVATE otherwise |
| Visibility.UnscheduledIsUnaffected | cases/api_views.py:1241-1292 | a material that a write schedules no recompute for has the same MAX as before it |
| Visibility.VisibilityIsMaxOrPending | cases/signals.py:50-103 | at every point of every run whose recomputes, repeated ones included, start while those of the same material under way are harmless, each material is pending, or at its MAX or about to be put there with nothing under way that can spoil it |
| Visibility.RestingTiersAreRight | materials/visibility.py:51-80 | any run of safe starts that comes to rest leaves every material at that tier |
| Visibility.BeginIsSafeExactlyWhen | materials/visibility.py:98-117 | the start of a recompute keeps that exactly when every recompute of the material under way has not read the states, read what gives the current tier, or will write nothing |
| Visibility.UnsafeBeginCanEndStale | materials/visibility.py:98-117 | after any other start there is a continuation without a further write that ends with nothing pending or under way and the material not at its MAX |
| Visibility.NoOverlapIsSafe | cases/signals.py:50-103 | recomputes of one material that never overlap all start safely |
| Visibility.DrainingIsTheFullRecompute | materials/visibility.py:133-198 | recomputing the pending materials in any order gives the full recompute |
| Visibility.ApiWritesAreThese | cases/api_views.py:1241-1292 | what every accepted API write does to a case's state and evidence is one of the writes the visibility protocol covers |
| Visibility.CreationIsThisWrite | cases/api_views.py:736-838 | a creation adds a draft citing the submitted evidence |
| Visibility.OverlappingRecomputesEndStale | materials/visibility.py:98-117 | two overlapping recomputes of one material can leave a draft's material listed with nothing pending |
| EventBus.Bus.ResetLocked | case_events/bus.py:76-85 | everything but the failure time is cleared |
| EventBus.Bus.Enter | case_events/bus.py:103-127 | the first critical section answers connected, refuse or connect, after the fork check |
| EventBus.Bus.EnsureStarted | case_events/bus.py:87-152 | one thread's whole start, whichever way the connect ends |
| EventBus.Bus.Publish | case_events/bus.py:353-370 | a publish answers True exactly when the bus is up and took the message, and False otherwise; an exception is the parameter `handed`, so that none escapes is given here, not proved |
| EventBus.EnsuredExactly | case_events/bus.py:87-152 | a start answers True exactly when this process holds the connection or makes one, tries exactly with no start under way and 30 seconds after a failure, and leaves the stated fields |
| EventBus.UninterruptedPublish | case_events/bus.py:353-370 | the moves of a publish with nothing between them are the publish of a single thread |
| EventBus.ConnectsAreExclusive | case_events/bus.py:87-152 | for any threads and interleaving: at most one connect in flight, and none starts during another, while a connection is held, or within 30 seconds after a failure |
| EventBus.FreshIsSound | case_events/bus.py:64-72 | a process before its first publish starts in the invariant those runs keep |
| EventBus.LosersReturnAtOnce | case_events/bus.py:115-118 | the lock is never held across a connect, and a thread that finds one in flight leaves with False and changes nothing |
| EventBus.FirstSectionExactly | case_events/bus.py:103-127 | a thread leaves the first section to hand its message over exactly when this process holds the connection, to connect exactly when it may try, with False otherwise |
| EventBus.SecondSectionExactly | case_events/bus.py:128-152 | the end of a connect is recorded as held and handed over, or as failed now and answered False |
| EventBus.ConnectEndsExactly | case_events/bus.py:128-141 | a failed connect is recorded at the moment it ends, before the lock is taken again |
| EventBus.ForkedChildConnectsExactlyWhen | case_events/bus.py:104-110 | a forked child can ever connect exactly when at the fork the lock was free and no connect was begun and unrecorded |
| EventBus.ForkDuringConnectIsStuck | case_events/bus.py:104-110 | a child forked during the parent's first connect never connects: the pid is only recorded with a success |
| Binder.CandidatesFromRow | casework/bind_materials.py:80-94 | the candidates of a row, first mention kept, in order |
| Binder.MergeEvidence | casework/common/evidence.py:14-35 | the current list, then the additions whose IRI is not there yet |
| Binder.AppendedIsWhatWasMissing | casework/common/evidence.py:14-35 | what is appended is new, without repeats, and leaves no addition unbound |
| Binder.PlanCase | casework/bind_materials.py:140-186 | the plan of one case: state guard, one probe per missing candidate, merge |
| Binder.ApplyPlan | casework/bind_materials.py:189-211 | nothing is sent for another action or without a token |
| Binder.PlanLosesNothing | casework/bind_materials.py:140-186 | a write is planned exactly for a draft with no uncertain and some verified missing candidate; it holds the current rows in order, then exactly the verified ones |
| Binder.UncertaintyAborts | casework/bind_materials.py:164-177 | a draft is aborted exactly when a missing candidate is uncertain, and only a planned write carries a list |
| Binder.PlanReportsExactly | casework/bind_materials.py:140-186 | every missing candidate of a draft is probed and named under its answer |
| Binder.BinderPatchIsAccepted | cases/api_views.py:1365-1580 | a request is sent exactly for a planned write, and on the case it was planned on the server accepts it |
| Binder.ReplanningIsNoop | casework/bind_materials.py:179-186 | after the server stored the list, planning again is a no-op |
| Binder.BinderPatchStores | cases/api_views.py:860-875 | on the case it was planned on, the PATCH stores the current rows and the additions and changes no other join, stage, state or slug |
| Binder.BinderClobbersNothing | cases/api_views.py:1418-1450 | among any concurrent protected PATCHes and approvals, each binder commit writes the evidence present at that commit and then its additions |
| Batches.Propose | casework/select_batch.py:83-97 | the filtered rows, and every row counted once, under its own fate |
| Batches.FateIsRight | casework/select_batch.py:43-97 | each row is out of year, dropped, without candidates or in the pool exactly as its cells say |
| Batches.PoolInOrder | casework/select_batch.py:83-97 | the pool keeps the order of the table |
| Batches.ReadLive | casework/select_batch.py:100-117 | rows whose live case needs binding, in order, up to the cap; each counter counts the rows read of its kind |
| Batches.ReadingExactly | casework/select_batch.py:100-117 | each read row is failed, no draft, bound or in need of binding exactly as its live case says |
| Batches.SelectBatch | casework/select_batch.py:72-117 | the needing rows of the pool, greatest stakes first, capped, with counters that add up |
| Batches.ByStakesSorts | casework/select_batch.py:98 | the order of the reads loses and repeats no row and puts greater stakes first |
| Batches.ByStakesIsStable | casework/select_batch.py:98 | rows of equal stakes keep the order of the table |
| Batches.NeedingExactly | casework/select_batch.py:100-117 | without a cap the selected rows are exactly those of the pool that need binding |
| Batches.SelectionAgreesWithTheBinder | casework/select_batch.py:109-114 | a readable row is passed over exactly when its case is no draft or the binder would probe nothing for it |
| Tags.Vocabulary.Edit | case_tags/models.py:104-131 | an edit is stored exactly when the check on the parent and the merge target accepts it |
| Tags.Vocabulary.WithBroader | case_tags/models.py:133-148 | on any graph the walk ends with the longest walk that repeats no tag |
| Tags.Vocabulary.ResolveValue | case_tags/models.py:204-231 | on any graph the walk ends, merge cycles included, with the specified resolution |
| Tags.LookupExactly | case_tags/models.py:204-231 | on any table a lookup is unknown, retired with its reason, or a row reached along merges; on acyclic merges one merged no further |
| Tags.AcceptedEditsKeepAcyclic | case_tags/models.py:104-131 | any sequence of accepted edits keeps roll-up free of cycles |
| Tags.AcceptedEditsKeepMergesNamed | case_tags/models.py:104-131 | any sequence of accepted edits keeps every merged tag with a replacement other than itself |
| Tags.EditIsRefusedExactlyWhen | case_tags/models.py:104-131 | the check refuses exactly a tag above itself or below one that has a broader, and a merge into nothing or itself |
| Tags.OneLevelKeptExactlyWhen | case_tags/models.py:113-126 | an accepted edit keeps the one-level rule exactly when a tag that others roll up into gets no broader one |
| Tags.TwoEditsMakeAChain | case_tags/models.py:113-126 | two accepted edits make a roll-up of three levels |
| Tags.AncestorPathIsComplete | case_tags/models.py:133-148 | on an acyclic graph the walk reaches every ancestor and ends at a tag without a broader one |
| Tags.AncestorPathIsUnique | case_tags/models.py:133-148 | what the indexer writes for a tag is determined by the graph |
| Tags.MergedAliasResolvesAlikeExactlyWhen | case_tags/models.py:204-231 | after A is merged into B their aliases resolve alike exactly when B is not on a cycle of merges |
| Tags.AcyclicMergesResolve | case_tags/models.py:204-231 | on acyclic merges they resolve alike, to a tag not merged any further |
| AuthorSlug.BaseOf | cases/models.py:711-715 | the base of any name is non-empty, at most 55 characters and starts with a letter |
| AuthorSlug.BaseKeepsTheName | cases/models.py:711-715 | the base is the first 55 characters of the name, after `author-` if it does not begin with a letter, less the dashes at their end |
| AuthorSlug.CandidatesAreDistinct | cases/models.py:717-723 | cutting the base to fit never makes two numbered candidates equal |
| AuthorSlug.GenerateUniqueSlug | cases/models.py:701-723 | the first free candidate, found within taken + 1, of at most 60 characters and starting with a letter |

## Left out

- Stages.ValidateStages: some CPython releases ignore two bytes after an undashed date and others refuse them; the model reads both, so the results about the merge hold for either.
- The case title, the offence type, image fields and other columns no rule here reads: text columns are one map.
- The change report the docket merge returns beside the list, and the reading of parties from court records.
- The grammar of court-case and material IRIs, and the case-type code of a docket number: parameters of the merge.
- JSON Patch, field validators, serializers, permissions, HTTP, throttling and the ORM: functions or an accept/refuse result.
- Soft delete and PATCHes with an absent, wildcard or several-version header inside `Serializability.EveryScheduleIsSerial`: the code does not protect them (`Serializability.LockedCheckIsExact`).
- The resolution of a case by slug inside an approval while another client re-slugs it: a proposal's case is found by a fixed slug.
- The text of a generated slug: it is a parameter, the random suffix included. In `SlugHistory` the slug of an action is the one after naming.
- CaseRow.CaseInstance.PartialUpdate: its If-Match gates are in `Serializability`.
- Batches.ByStakesSorts: an amount that reads as `nan`, which is comparable with nothing; the order Python then leaves depends on its sort algorithm.
- CaseRow.CaseInstance.Save: the check of the title is left out and the history row it records is in `SlugHistory`; `update_fields` saves of single text columns are not modelled.
- Proposals.ProposalDesk.EditIntent: an entry without a date or a title and a raw patch without ops, which the shape check refuses too, are refused only at approval here.
- EventBus.Bus.Publish: what the bus client raises is the parameter `handed`.
- CaseLaws.SlugGateIsExact: an op is its kind and path; its value and `from` pointer are part of the edit.
- Uniqueness of slugs across cases inside one PATCH: it is in `SlugHistory`, one case at a time in `Cases`.
- Visibility.VisibilityIsMaxOrPending: a recompute that fails, a material row created or given a new policy after it is cited, and a process that ends between its commit and its callback are not steps of the model.
- The search index, the re-indexing of court cases and entities, notifications and audit entries.
- EventBus: closing the bus, delivery of messages and the event loop; the claims are for runs without a close.
- Binder: reading the batch table, logging, the ledger; parsing a cell into a source and an ident is done before the model.
- Tags: the check that a stored alias key is normalised, and foreign keys to tags that do not exist.
- AuthorSlug.GenerateUniqueSlug: two accounts racing for one candidate, and slugs that would need more than 58 digits.
- Language-model drafting, enrichers, card images and embeds.
