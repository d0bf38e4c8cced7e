# SmartClass in Dafny

A model of the parts of SmartClass whose behaviour is hard to see from any one function, with
proofs of what they are meant to guarantee. `dafny verify dfyconfig.toml` checks all of it. There
are five parts.

**Tracked changes in DOCX documents.** Unpacking a document merges neighbouring insertions and
deletions of one author, and then neighbouring runs and texts, by loops that change child lists in
place. A validator later rejects one author's changes, also in place, and compares the text that
is left with the original's. `DocxTree` is the tree and what a reader can tell from it: every
character and every element, in order, with the stack of tracked changes around it and the format
of its run, paragraph by paragraph.
`Coalesce` specifies the merging of one child list, `ChildLists` holds the loops, `TreePasses`
takes the merging through a tree, `Redlining` and `RejectionWalk` are the validator,
`TrackedEdits` says which edits are properly tracked, `TextComparison` what equal texts tell about
two documents, and `Unpacking` puts it together: unpack a
document, edit it with tracked changes, and the validator accepts the result. `Reunpacking` is
about unpacking more than once, and `UnpackingLimits` shows on concrete documents where the
conditions of these theorems are needed.

**Knowledge-file ingestion.** One worker takes file ids from a queue and reindexes them in several
steps, while requests upload files, retry them and replace their content. `Ingestion` is the
protocol as interleaved atomic steps, with commits that write only the columns a session changed.
`IngestionProgress` proves that it forgets no file and fails none without an exception.
`IngestionRuntime` is the runtime itself after a restart, each round of which is a run of the
protocol; which outside calls raise in a round is an argument.

**The teaching workflow.** `Workflow` is the graph of nodes over a state that persists between
turns; `WorkflowRuns` proves what holds over runs of any number of turns, and `WorkflowTurns` which
nodes a whole turn visits.

**Artifact revisions.** `Artifacts` is the table and its operations, one for each commit, and how
operations on one key look among those on others. `ArtifactCatalogue` is what a thread's catalogue
lists and what a job does to it while other jobs run. `ArtifactService` is the service and the job
as they run, with jobs on other keys committing wherever this one is suspended.

**Streaming and context compression.** `EventStream` checks the server-sent-event printer against
a parser written from sections 9.2.5 and 9.2.6 of the WHATWG HTML Living Standard.
`ContextCompression` is the split of a thread, the replacement and its size.

`Options`, `Strings` and `Sequences` hold shared definitions.

Six statements that one might expect turn out to need a condition. The model gives the condition,
and an input on which the statement fails without it:

- Unpacking an unpacked document changes nothing if and only if the document was not interrupted
  (`Reunpacking.UnpackingTwice`): nowhere in a paragraph or cell is a `proofErr`, with at most
  blanks and comments beside it, all that separates two insertions or two deletions of one author.
  Tracked changes are merged before `proofErr` elements are removed, so a second unpacking merges
  what the first could not (`Reunpacking.ProofErrDelaysMerging`). Each of the two passes alone is
  idempotent, and a third unpacking never changes anything.
- Merging insertions and deletions keeps the rejected text for every document exactly for the
  authors whose name is not empty (`UnpackingLimits.UnpackingKeepsRejectedText`): the merging pass
  reads a missing author as the empty one, the validator does not
  (`UnpackingLimits.EmptyAuthorLosesText`).
- The validator compares paragraphs exactly where no text holds a line feed
  (`TextComparison.AcceptsByParagraph`); otherwise it compares lines (`TextComparison.AcceptsExactly`),
  and one paragraph with a line feed counts as two (`TextComparison.LineFeedHidesParagraph`).
- The in-place rejection computes "drop the insertions, put back what the deletions hold" exactly
  when no deletion of the author is directly inside another one (`Redlining.InPlaceIsPure`, and
  `Redlining.NestedDeletionStays` for one that is). The text that is left is the same even then
  (`Redlining.RejectedText`).
- A failed artifact job leaves its type's entry alone unless it fails after the row was marked
  ready and the type had an entry (`ArtifactCatalogue.FailedJobKeepsEntry`, and
  `ArtifactCatalogue.LateFailureLosesEntry` for one that does).
- After a restart every ready file is up to date if and only if every persisted ready file was
  (`IngestionRuntime.FileIngestionRuntime.Restart`): a file that was marked ready while its index
  was of older content (`Ingestion.StaleReady`) is not queued again if the process stops before the
  request that changed the content has put it back in the queue.

## Model

| member | source | states |
|---|---|---|
| DocxTree.XmlTellsAll | skills/docx/scripts/office/helpers/merge_runs.py:159-167 | the serialised forms that are compared are equal if and only if the elements are, but for object identity |
| DocxTree.PropsOfFirst | skills/docx/scripts/office/helpers/merge_runs.py:59-65 | the properties of a run are its first property element, and none only if it has no such element |
| Coalesce.JoinAssociative | skills/docx/scripts/office/helpers/merge_runs.py:170-199 | of three neighbours, merging the first two first or the last two first gives the same element |
| Coalesce.FuseStep | skills/docx/scripts/office/helpers/simplify_redlines.py:64-68 | merging any two mergeable neighbours anywhere in a list leaves what coalescing the whole list gives, so the loops may merge in any order |
| Coalesce.FirstStays | skills/docx/scripts/office/helpers/merge_runs.py:116-118 | of merged elements the first stays, with its identity and attributes, and takes in the others |
| Coalesce.FuseSettles | skills/docx/scripts/office/helpers/merge_runs.py:112-125 | a coalesced list has no element that could be merged with the next element |
| Coalesce.SettledMeans | skills/docx/scripts/office/helpers/merge_runs.py:78-88 | settled lists are exactly those in which something stands between any two elements that could be merged |
| Coalesce.SettledIsFixed | skills/docx/scripts/office/helpers/simplify_redlines.py:60-72 | a settled list is not changed by coalescing it again |
| Coalesce.MergesExactly | skills/docx/scripts/office/helpers/merge_runs.py:108-125 | a container's list stays as it is if and only if between any two runs with equal properties there is another element, and between any two texts of a run an element or loose text; and what merging gives is so |
| Coalesce.WrappersMergeExactly | skills/docx/scripts/office/helpers/simplify_redlines.py:60-101 | a list stays as it is if and only if another element or loose text is between any two wrappers of one tag and author; and what merging gives is so |
| Coalesce.FuseBothSettles | skills/docx/scripts/office/helpers/simplify_redlines.py:36-38 | after the pass over insertions and then the one over deletions, neither kind has a mergeable pair |
| Coalesce.FuseView | skills/docx/scripts/office/helpers/simplify_redlines.py:104-108 | coalescing keeps every character and element, its order, its stack of (tag, author) wrappers and the format of its run: exactly for runs and texts, and for wrappers when an absent author is read as an empty one, as the pass does |
| Coalesce.FuseRunsView | skills/docx/scripts/office/helpers/merge_runs.py:108-125 | so do merging the runs of a container and merging the texts of each run |
| Coalesce.FuseLoses | skills/docx/scripts/office/helpers/simplify_redlines.py:64-68 | coalescing removes one element of its kind for each merge and no other element |
| Coalesce.FuseRunsLoses | skills/docx/scripts/office/helpers/merge_runs.py:112-125 | the runs of a container's subtree decrease by the length its child list loses |
| ChildLists.MergeTrackedChangesIn | skills/docx/scripts/office/helpers/simplify_redlines.py:47-72 | the index loop, with pops, is left-to-right coalescing of the child list, nothing that could be merged is left, and the count is the number of wrappers removed |
| ChildLists.ConsolidateText | skills/docx/scripts/office/helpers/merge_runs.py:178-199 | the right-to-left loop over the remembered texts gives the same as left-to-right coalescing |
| ChildLists.MergeRunsIn | skills/docx/scripts/office/helpers/merge_runs.py:108-125 | the nested loops over runs coalesce the runs and then the texts of each, no two runs of equal properties are left next to each other, and the count is the number of runs removed |
| TreePasses.RewriteLocal | skills/docx/scripts/office/helpers/merge_runs.py:31-33 | working on other containers commutes with the work on one container's child list |
| TreePasses.RewriteCompose | skills/docx/scripts/office/helpers/merge_runs.py:29-33 | working on one set of containers and then on another is working on their union, so the order of the set does not matter, even for containers inside runs |
| TreePasses.RewriteView | skills/docx/scripts/office/helpers/simplify_redlines.py:34-38 | a pass over any set of containers keeps every character and element, its surrounding changes and the format of its run: run merging exactly; the merging of tracked changes when an absent author is read as an empty one, on any document if formats are not looked at |
| TreePasses.EverywhereNormal | skills/docx/scripts/office/helpers/merge_runs.py:29-33 | after a pass, no container in the tree has a mergeable pair, and no run two mergeable texts |
| TreePasses.NormalMeans | skills/docx/scripts/office/helpers/merge_runs.py:29-33 | the normal form read off the tree: nowhere two neighbours that could be merged |
| TreePasses.NormalIsFixed | skills/docx/scripts/office/helpers/merge_runs.py:112-125 | a tree in normal form is not changed by another pass |
| TreePasses.EverywhereSpaced | skills/docx/scripts/office/helpers/merge_runs.py:194-197 | if every text with a space at an edge carries xml:space=preserve, that is still so after a pass; and so it is if those are the only ones that carry it |
| Redlining.RejectedText | skills/docx/scripts/office/validators/redlining.py:202-247 | the text left after rejecting an author's changes is read off the document: what the author did not insert and what is not struck, or is struck by the author (too), paragraph by paragraph; for every author, the empty name included |
| Redlining.InPlaceIsPure | skills/docx/scripts/office/validators/redlining.py:218-231 | the walk that mutates the tree under itself computes the pure recursion if and only if no deletion of the author is directly in another |
| Redlining.NestedDeletionStays | skills/docx/scripts/office/validators/redlining.py:218-231 | a deletion directly in a deletion of the same author, on which the walk and the pure recursion differ |
| RejectionWalk.RemoveInsertions | skills/docx/scripts/office/validators/redlining.py:207-213 | collecting and then removing drops exactly the author's insertions of one child list |
| RejectionWalk.SpliceDeletions | skills/docx/scripts/office/validators/redlining.py:218-231 | indices recorded beforehand stay right in reverse order: each of the author's deletions is replaced by its restored children |
| RejectionWalk.DropInsertions | skills/docx/scripts/office/validators/redlining.py:207-213 | the first walk drops the author's insertions at every depth |
| RejectionWalk.UndoDeletions | skills/docx/scripts/office/validators/redlining.py:218-231 | the second walk, into children it has just spliced in, is the recursion InPlaceIsPure speaks of |
| RejectionWalk.ExtractTextContent | skills/docx/scripts/office/validators/redlining.py:233-247 | the loops give the non-empty paragraph texts, one to a line |
| TextComparison.NonEmptyExactly | skills/docx/scripts/office/validators/redlining.py:243-245 | the paragraphs compared are exactly those with text, in their order |
| Strings.JoinedSplits | skills/docx/scripts/office/validators/redlining.py:247 | splitting the joined text at line feeds gives back the paragraphs, but for line feeds of their own |
| TextComparison.ExtractedTells | skills/docx/scripts/office/validators/redlining.py:233-247 | two documents are extracted alike if and only if their paragraphs with text have the same lines |
| TextComparison.ExtractedTellsParagraphs | skills/docx/scripts/office/validators/redlining.py:233-247 | so, where no text holds a line feed, if and only if they have the same such paragraphs |
| TextComparison.LineFeedHidesParagraph | skills/docx/scripts/office/validators/redlining.py:247 | a document of one paragraph and one of two that are extracted alike |
| TextComparison.HasChangeByExactly | skills/docx/scripts/office/validators/redlining.py:37-54 | the author has changed something if and only if an insertion or deletion of the author is somewhere in the tree, at any depth |
| TextComparison.AcceptsExactly | skills/docx/scripts/office/validators/redlining.py:37-102 | the validator accepts if and only if the author changed nothing or what is left of both documents has the same lines |
| TextComparison.AcceptsByParagraph | skills/docx/scripts/office/validators/redlining.py:37-102 | and where no text holds a line feed, the same paragraphs, one by one |
| TrackedEdits.StrikeExact | skills/docx/scripts/office/validators/redlining.py:224-231 | wrapping siblings in a deletion keeps the rejected text if and only if nobody else's struck text is among them or they are already inside a change of the author; for every author and any surroundings |
| TrackedEdits.EditKeeps | skills/docx/scripts/office/validators/redlining.py:113-115 | each kind of tracked edit, at any depth, outside or inside the author's own changes, keeps what is left after rejecting |
| TrackedEdits.TrackedEditsAccepted | skills/docx/scripts/office/validators/redlining.py:37-102 | a document made by any sequence of tracked edits of any author has the original's rejected text and is accepted |
| Unpacking.NamesRsidExactly | skills/docx/scripts/office/helpers/merge_runs.py:99-103 | an attribute name counts if it holds rsid anywhere, in any mixture of cases |
| Unpacking.WithoutRsidExactly | skills/docx/scripts/office/helpers/merge_runs.py:99-103 | exactly the attributes so named are taken off a run |
| Unpacking.Document.SimplifyRedlines | skills/docx/scripts/office/helpers/simplify_redlines.py:22-44 | on any document, paragraphs and then cells, the pass coalesces every one of them, nothing that could be merged is left, text and order are kept, and the count is the wrappers of the document before minus those after |
| Unpacking.Document.MergeRuns | skills/docx/scripts/office/helpers/merge_runs.py:16-39 | whatever order the set yields, the pass gives one tree in which no two neighbouring runs have equal properties, everything shows as it did, formats included, and the count is the original document's runs minus the runs after |
| Unpacking.Document.RemoveAuthorTrackedChanges | skills/docx/scripts/office/validators/redlining.py:202-231 | the two walks in turn leave the root that the specification of the in-place rejection describes |
| Unpacking.SimplifyingKeepsOutline | skills/docx/scripts/office/helpers/simplify_redlines.py:22-44 | merging tracked changes keeps, in any document, every paragraph, character, element and surrounding change, an absent author being read as an empty one; and formats, if properties hold nothing but properties |
| Unpacking.MergingRunsKeepsOutline | skills/docx/scripts/office/helpers/merge_runs.py:16-39 | removing proofErr and rsid and merging runs keeps every paragraph, character, element, surrounding change and format exactly |
| Unpacking.UnpackingKeepsOutline | skills/docx/scripts/office/unpack.py:62-69 | unpacking keeps every paragraph, character, element, surrounding change and format, an absent author being read as an empty one |
| Unpacking.UnpackingKeepsText | skills/docx/scripts/office/unpack.py:62-69 | unpacking changes neither the extracted text nor the text left after rejecting the changes of an author with a name |
| Unpacking.UnpackedEditsAccepted | skills/docx/scripts/office/validators/redlining.py:87-102 | unpack, edit with tracked changes of an author with a name, and the validator accepts against the document before unpacking |
| Reunpacking.SimplifyIsIdempotent | skills/docx/scripts/office/helpers/simplify_redlines.py:34-38 | a second simplify_redlines finds nothing to merge and changes nothing, in any document |
| Reunpacking.MergeRunsIsIdempotent | skills/docx/scripts/office/helpers/merge_runs.py:26-33 | a second merge_runs, with its removals, finds nothing to merge and changes nothing |
| Reunpacking.MergeRunsAgain | skills/docx/scripts/office/helpers/merge_runs.py:26-39 | and it returns 0 |
| Reunpacking.InterruptedExactly | skills/docx/scripts/office/helpers/simplify_redlines.py:89-101 | removing proofErr from a simplified document leaves wrappers that could be merged if and only if the document is interrupted, which is read off the document itself |
| Reunpacking.MergingRunsIsNeutral | skills/docx/scripts/office/helpers/merge_runs.py:108-125 | merging runs neither makes nor removes a pair of wrappers that could be merged |
| Reunpacking.UnpackingTwice | skills/docx/scripts/office/unpack.py:62-69 | unpacking a second time changes nothing if and only if the document is not interrupted |
| Reunpacking.UnpackingThreeTimes | skills/docx/scripts/office/unpack.py:62-69 | a third time never changes anything |
| Reunpacking.ProofErrDelaysMerging | skills/docx/scripts/office/helpers/simplify_redlines.py:96-98 | two insertions of one author with a proofErr between them: unpacking twice differs from unpacking once |
| UnpackingLimits.EmptyAuthorLosesText | skills/docx/scripts/office/helpers/simplify_redlines.py:80-91 | a document whose rejected text for the empty author changes when it is simplified |
| UnpackingLimits.UnpackingKeepsRejectedText | skills/docx/scripts/office/helpers/simplify_redlines.py:80-91 | simplifying keeps the rejected text of all documents, whatever they contain, if and only if the author's name is not empty |
| UnpackingLimits.NestedRunsNeedOrder | skills/docx/scripts/office/helpers/merge_runs.py:29-33 | with a run directly in a run the order of the containers does matter |
| Ingestion.StepKeeps | app/services/file_service.py:748-792 | every step of a request or of the worker keeps the invariant: a file is due again, or the worker is on track for it, or it is up to date |
| Ingestion.WorkerKeeps | app/services/file_service.py:779-789 | a step of the worker keeps it, stale or not |
| Ingestion.RequestKeeps | app/api/file.py:297-329 | a step of an upload, retry or save keeps it, wherever the worker is |
| Ingestion.QuiescentIsUpToDate | app/core/file_ingestion.py:33-56 | in every interleaving, once nothing is queued, in flight or being reindexed, each ready file's chunks are the parts of its current content in order, numbered from 0, and its count is right |
| IngestionProgress.RunRemembers | app/services/file_service.py:637-693 | in every run a file still to be indexed is queued, about to be, or in the worker's hands, and the worker's commits do write |
| IngestionProgress.RestIsDone | app/core/file_ingestion.py:33-56 | in every run from the empty system, once it comes to rest each file that is not deleted is ready and up to date, or failed because an exception was raised while it was reindexed; none is left uploaded or indexing |
| IngestionProgress.UnsupportedNeverReady | app/services/file_service.py:764-766 | in every run a file uploaded with an unsupported extension is never ready |
| IngestionProgress.DeletedStays | app/services/file_service.py:755-757 | a deleted file stays deleted in every run, even if it is still queued |
| IngestionProgress.StoreIsLastStored | app/api/file.py:294-316 | in every run the content of a file is the one stored last |
| IngestionProgress.PickedInTurn | app/core/file_ingestion.py:33-44 | the queue is first in, first out: what is i-th is taken by the i-th pick from now and not before |
| IngestionProgress.CommitsMerge | app/services/file_service.py:637-693 | of two sessions that loaded the same row each keeps what the other committed in another column |
| IngestionProgress.UncontestedCommits | app/api/file.py:318-325 | a retry or a save that nobody interferes with makes the file pending again, and a save forgets its chunk count |
| Ingestion.RunsEnd | app/core/file_ingestion.py:42-56 | when requests stop arriving, only so many more steps can follow |
| Ingestion.SomethingToDo | app/core/file_ingestion.py:42-56 | and until quiescence some step is always possible |
| Ingestion.StaleReady | app/api/file.py:318-328 | a run in which a file is marked ready although its index is of older content |
| IngestionRuntime.RecoverableExactly | app/services/file_service.py:729-745 | recovery lists exactly the uploaded and indexing files, each once, in id order |
| IngestionRuntime.FileIngestionRuntime.GetRecoverableFileIds | app/services/file_service.py:729-745 | the loop lists them, turns every indexing row into an uploaded one, and changes nothing else |
| IngestionRuntime.FileIngestionRuntime.RecoverPendingFiles | app/core/file_ingestion.py:36-40 | the recovered ids are queued in that order |
| IngestionRuntime.FileIngestionRuntime.ProcessFileIngestion | app/services/file_service.py:748-792 | given which calls raise, the file ends ready if and only if it is supported, stored and readable and none does, also half way through deleting or adding chunks, and otherwise failed; when ready it is up to date; other files' rows and chunks are untouched, and the steps are a run of the protocol |
| IngestionRuntime.FileIngestionRuntime.Drain | app/core/file_ingestion.py:42-56 | draining deals with every queued file that is not deleted, each ending as its last round decides, and changes nothing else |
| IngestionRuntime.FileIngestionRuntime.Restart | app/core/file_ingestion.py:19-23 | from any persisted rows, start-up and draining leave each pending file ready and up to date if it can be read and nothing raises in its round, and only otherwise failed; none pending, and the others as they were; every ready file is then up to date if and only if every persisted ready file was |
| Workflow.NormalizedExactly | app/core/graph.py:649-658 | the targets of an approval are the known types it selects, each once; all types when it does not say |
| WorkflowRuns.StepKeeps | app/core/graph.py:1197-1354 | every step keeps: one catalogue entry per type, launches that match what fan-in will read and start from cleared slots, and stored successors only where they are consumed |
| WorkflowRuns.MergeIgnoresOrder | app/core/agent.py:130-134 | the state after the parallel jobs does not depend on the order in which they complete |
| WorkflowRuns.FanInReportsThisTurn | app/core/graph.py:1372-1398 | in every run, fan-in reports exactly one finished result for each job of the launch just before it, and none left over from an earlier turn or another type |
| WorkflowRuns.LaunchStartsClean | app/core/graph.py:661-695 | while jobs run, their slots are pending, no result is listed, and other slots are as before |
| WorkflowRuns.RevisionHasItsSource | app/core/graph.py:1262-1309 | every revision job finds its source, and it is an entry of the current catalogue |
| WorkflowRuns.RevisionSelects | app/core/graph.py:599-634 | a revision is refused only when nothing exists, asks back exactly when several artifacts exist and none is named, and otherwise revises exactly what is named, or everything |
| WorkflowRuns.GenerationNeedsApproval | app/core/graph.py:1186-1230 | generation jobs run only after an approval answering the review of the plan just completed, for exactly the selected types, which are not none |
| WorkflowRuns.ApprovalLaunches | app/core/graph.py:1197-1230 | the answer to a plan review launches jobs if and only if it approves and selects some existing type; text and attachments lead back to the design |
| WorkflowRuns.DesigningNeedsMetadata | app/core/graph.py:747-768 | nothing is designed in a thread whose extracted metadata was not approved before |
| WorkflowRuns.TurnsEnd | app/core/graph.py:1513-1544 | a turn takes at most eight supersteps, as a rank of node and stored successor goes down with each |
| WorkflowRuns.SomethingToRun | app/core/graph.py:1513-1544 | a turn stops only at the end or at an interrupt |
| WorkflowRuns.FanInEndsTheTurn | app/core/graph.py:934-935 | after fan-in the reflection finds no stored successor and goes on to the experience reflection |
| WorkflowRuns.StartedHasSlots | app/core/graph.py:661-695 | from its first message on, a thread has a result slot for every type |
| WorkflowRuns.SlotsKept | app/core/graph.py:661-695 | the slot of a type changes only when a job of that type is launched or completes |
| WorkflowRuns.RevisionNeedsSource | app/core/agent.py:1836-1848 | a revision is reported as done if and only if it had a source and an artifact was made |
| WorkflowTurns.TurnOfTrace | app/core/graph.py:1513-1544 | every stretch of a run from an event that starts a turn to where it stops is a turn, as the following are about |
| WorkflowTurns.TurnKeepsStart | app/core/graph.py:571-575 | throughout a turn, what was said last and the catalogue are those of its start: the message, the text of an answer, or what was said before an approval |
| WorkflowTurns.ChatTurnVisits | app/core/graph.py:807-814 | a message taken for chat visits the chat nodes and ends, without metadata and without an interrupt |
| WorkflowTurns.PlanTurnVisits | app/core/graph.py:1104-1108 | one taken for a plan has its metadata extracted, and stops at their review if and only if they are complete, else at a question |
| WorkflowTurns.RevisionTurnVisits | app/core/graph.py:771-804 | one taken for a revision, which it is without asking the model if it reads so and there is something to revise, ends if there is nothing, asks back if it is unclear what, and else runs exactly the jobs it names, fan-in and the reflections |
| WorkflowTurns.UserInputTurnVisits | app/core/graph.py:1136-1147 | an answer to a question has the metadata extracted again |
| WorkflowTurns.MetadataReviewTurnVisits | app/core/graph.py:747-768 | an approval of the metadata leads to a design and its review, any other answer to extracting them again |
| WorkflowTurns.PlanReviewTurnVisits | app/core/graph.py:1197-1230 | an approval of the plan runs exactly the jobs it selects, fan-in and the reflections, or ends; any other answer leads to another design |
| WorkflowTurns.ClarificationTurnVisits | app/core/graph.py:1312-1354 | an approval revises every entry of the catalogue, any other answer is looked at as the request was |
| WorkflowTurns.ReviewIsOfComplete | app/core/graph.py:1104-1108 | in every run, metadata under review is complete |
| Artifacts.OpKeeps | app/services/artifact_service.py:276-456 | each operation on any row keeps the revision forest and at most one ready and current row for each thread, user and type |
| Artifacts.OpsKeep | app/services/artifact_service.py:395-424 | so does every sequence of commits, however many running rows are flagged current; rows keep their thread, user, type, plan, parent and revision, and a root once set |
| Artifacts.ChainReachesRoot | app/services/artifact_service.py:308-341 | exactly revision_number minus 1 parent steps lead from a row to its root; on the way ids get smaller, and thread, user, type and plan are constant |
| Artifacts.RevisionsFormForest | app/services/artifact_service.py:344-362 | in every table that commits make from the empty one, the chain of parents of a row has as many rows as its revision number and ends at its root, whether or not that root has been filled in |
| Artifacts.EntryIsRegister | app/services/artifact_service.py:395-424 | in any interleaving, what readers see of a key is a register that only the key's own operations change: marking ready writes it and marking that very row failed clears it |
| Artifacts.StatusIsLastMark | app/services/artifact_service.py:422-455 | in any interleaving a row is running until it is marked, and then ready or failed as it was marked last |
| Artifacts.ReadEarlyWriteLate | app/core/agent.py:1070-1076 | whatever operations on other keys commit between the read and the commit of marking ready, the outcome is that of marking ready at once, so one lock for each thread is enough |
| ArtifactCatalogue.SameNewestFirst | app/services/artifact_service.py:253-257 | the newest of each type, newest first, is one list only |
| ArtifactCatalogue.CatalogueOncePerType | app/services/artifact_service.py:247-252 | a catalogue has one entry for a type, as the workflow relies on |
| ArtifactCatalogue.CatalogueListsEntries | app/services/artifact_service.py:217-257 | for one user, taking the newest drops nothing: the catalogue is exactly the user's ready and current rows in the thread |
| ArtifactCatalogue.JobEntry | app/core/agent.py:1820-2059 | with any operations on other keys between its steps, a job keeps, replaces or loses its type's entry depending on where it stops |
| ArtifactCatalogue.FailedJobKeepsEntry | app/core/agent.py:1997-2059 | a failed job, with others running, keeps its type's entry if and only if it did not fail after the row was ready with an entry to lose |
| ArtifactCatalogue.LateFailureLosesEntry | app/core/agent.py:1997-2059 | a table and a job that fails late, after which its type has no entry |
| ArtifactCatalogue.FailedJobsKeepCatalogue | app/core/agent.py:1820-2059 | any interleaving of jobs that fail before mark-ready commits leaves every catalogue as it was, row for row |
| ArtifactCatalogue.CatalogueFollowsOps | app/services/artifact_service.py:217-257 | after any interleaving a user's catalogue lists exactly what the operations on each of the user's keys have written |
| ArtifactCatalogue.SuccessReplacesOwnType | app/core/agent.py:1943-1957 | a successful job, with others running, replaces exactly its own type's entry of its user's catalogue; a type that nobody works on keeps its entry |
| ArtifactService.ArtifactTable.CreateRunningArtifact | app/services/artifact_service.py:276-341 | the new row is running, current if and only if it has no parent, of revision 1 or the given one, and, once handed over, has the given root or itself as the root; earlier rows of the key are unchanged, also with other jobs and an exception between the two commits |
| ArtifactService.ArtifactTable.CreateRevisionArtifact | app/services/artifact_service.py:344-362 | the new row is the next revision of its source, under the same root, with other jobs committing meanwhile |
| ArtifactService.ArtifactTable.MarkArtifactReady | app/services/artifact_service.py:395-424 | reading the current rows, being suspended while jobs on other keys commit, and then clearing what was read amounts to marking the row ready at the end: it is ready and current, no other row of the key is current, and those that were are otherwise as they were |
| ArtifactService.ArtifactTable.MarkArtifactFailed | app/services/artifact_service.py:441-456 | the row is failed, keeps its other columns but the time, and no other row changes |
| ArtifactService.ArtifactTable.ListLatestReadyCurrent | app/services/artifact_service.py:241-257 | dictionary and sort give, for each type, the last visible row by updated_at and then id, the last first |
| ArtifactService.ArtifactTable.RunArtifactJob | app/core/agent.py:1820-2059 | given where it raises, the job succeeds if and only if it can start and nothing raises, whatever jobs on other keys do meanwhile; then its row is ready and the entry that readers see, and otherwise it is no entry, and failed if the job was handed it |
| EventStream.NormalizedIsEndsOfLine | app/api/chat.py:29 | the two replacements turn each CRLF pair, lone CR and lone LF into one LF |
| EventStream.FormatSseEvent | app/api/chat.py:25-32 | the loop prints the frame's lines, each ended by a line feed, and a blank line |
| EventStream.SplitJoined | app/api/chat.py:30 | splitting at line feeds loses nothing |
| EventStream.RoundTrip | app/api/chat.py:25-32 | a parser reading any list of frames gets exactly their events, with empty data, leading spaces and trailing newlines as they were, if the names have no line break |
| EventStream.RoundTripOfOne | app/api/chat.py:27-28 | a frame comes through if and only if its name has no line break |
| ContextCompression.EstimateMessageTokens | app/core/context_compression.py:111-124 | the estimate is the least positive number of four-character tokens that the texts and eight characters a message fit in |
| ContextCompression.TotalCharsIs | app/core/context_compression.py:120-123 | the characters counted are eight for each message and those of all texts |
| ContextCompression.PlanSplits | app/core/context_compression.py:127-180 | a plan to compress splits the messages in two non-empty parts, the second starting with a message of the teacher and holding exactly the turns to keep |
| ContextCompression.CompressesWhen | app/core/context_compression.py:138-180 | a thread is compressed if and only if it is enabled, over the threshold, has more turns than to keep, and every message has an id |
| ContextCompression.ReasonTells | app/core/context_compression.py:138-180 | the reason given is the first of the conditions that is not met |
| Strings.StrippedExactly | app/core/context_compression.py:184 | stripping takes off all white space at both ends and nothing else |
| ContextCompression.Truncated | app/core/context_compression.py:183-187 | the result is the stripped value when that fits, and never longer than the limit and the notice of truncation |
| ContextCompression.TruncatedCuts | app/core/context_compression.py:183-187 | a value that is too long is cut at the limit, loses only the white space before the cut, and ends with the notice |
| ContextCompression.CompressedMessageBounded | app/core/context_compression.py:304-325 | the summary message is recognised as one, and its length is bounded by the settings and the fixed text |
| ContextCompression.CompressedMessageHolds | app/core/context_compression.py:304-325 | the message starts with the marker, holds the state, or says that there is none, and ends with the summary, or says that there is none |
| ContextCompression.JoinedHolds | app/core/context_compression.py:254 | until it is cut, the state preface holds each of its sections whole |
| ContextCompression.CompressedMessageRecognised | app/core/context_compression.py:86-91 | the summary is recognised by its mark, or by its text when the mark is lost |
| ContextCompression.OthersNotRecognised | app/core/context_compression.py:86-91 | a message that is no system message, or has neither, is not |
| ContextCompression.UpdateReplacesAll | app/core/context_compression.py:328-334 | the update removes every message, adds one summary and reinstates exactly the retained ones in their order |
| ContextCompression.CompressionReplaces | app/core/context_compression.py:304-334 | after it the thread holds the retained messages in their order and one summary, all with ids, has exactly the turns to keep, compressing again does nothing, and its estimate is at most that of the retained messages and a bound that only the settings decide |

## Left out

- XML parsing and printing, zip files, pretty-printing and namespaces: a tree with tags stands for the document; a `t` or `delText` holds one text, as a leaf. Elements that only share a local name with these, such as math runs, are not part of this model.
- DOM references: a helper that changes a child list in place is a method that reassigns the list, and a remembered element is a position in it; an element's id stands for the object, so sets of containers are sets of ids. Aliasing of nodes is not modelled.
- Comparing run properties by `toxml` is comparing the trees without object ids.
- simplify_redlines.py:80-86 also finds an author attribute in another namespace; only the one author attribute of an element is modelled.
- redlining.py:207 and 218 rely on the order in which `iter` walks a tree that changes; it is modelled as visiting a node before its children, the children as they are when it gets there.
- Rendered whitespace: only the raw text and the space-edged invariant are claimed; tabs and newlines are treated differently in merge_runs.py:194 and in skills/docx/scripts/office/validators/docx.py:79-81.
- "Accepted" does not mean "no untracked edit": redlining.py:51-54 accepts a document without any change by the author unseen. The model accepts there too.
- Ingestion: error messages, `indexed_at`, page metadata and the users of files; `delete_file` while the same file is ingested; a crash between storing content and committing the row; a failing commit. The code does not protect against these.
- Ingestion: that at most one active file has a given hash is not claimed; retrying can revive a duplicate.
- IngestionRuntime.FileIngestionRuntime.Drain: does not model requests arriving meanwhile; `Ingestion` does.
- Workflow: exceptions that leave a turn half done (crash-free runs only), the texts of messages beyond the keywords the routing looks for, memory stores, retrieval and model calls; their answers are parameters of the events.
- Workflow: how the graph library schedules a superstep is assumed: all launched jobs complete before fan-in runs once. Whether an approval is still current is checked before the lock is taken (app/api/chat.py:88-90), so the model lets any answer meet any interrupt.
- Artifacts: files, titles and storage columns; ids are positions, so gaps in the sequence of ids are not modelled; that filling in a root also refreshes the new row's time, which nothing reads before the row is marked; all rows that one call clears get one timestamp; an exception raised while a failure is being recorded.
- Artifacts: an OnlyOffice save of an artifact (app/api/file.py:331) sets `ready` without clearing other current rows, and is outside the invariant of one ready and current row.
- ArtifactService.ArtifactTable.MarkArtifactReady: does not model two jobs on one key at once; the lock of the thread and one job for a type exclude them.
- EventStream: last event ids and reconnection times, which are never sent; decoding of bytes.
- ContextCompression: token counters of models, which only replace the estimate (any estimate is allowed in the split); messages whose content is a list; the sections of the state preface, which are arbitrary texts here.
- ContextCompression.UpdateReplacesAll: does not say where the reducer puts the summary; `add_messages` is not part of this model, and it is assumed to remove the listed ids, to keep the order of the messages that the thread had, and to put the new one somewhere among them.
- Authentication, storage backends, observability, prompts, validation against schemas, voice and video, the workspace tools and the remaining routes: plumbing with only easy properties.
