# A verified model of the platform's stateful cores

This project models the parts of a retrieval-augmented chat platform (FastAPI backend, Next.js frontend) whose
correctness spans several functions, requests or interleavings, and proves properties of them in Dafny.
`dafny verify dfyconfig.toml` checks everything. One module per component:

| module | what it models |
|---|---|
| `WorkflowGraph` | the graph editor: three-state depth-first search for a cycle edge, worklist closure of ancestors, id generation, edits and runs of edits |
| `FolderTree`, `FolderService`, `FolderTotals`, `FolderNames` | folders with redundant path, depth, parent, collection and sibling names; the create, rename/move, delete and bulk requests; totals folded up parent chains; readable paths |
| `EventStream` | the frame printer, the keepalive injector and the incremental reader of the answer stream |
| `ProgressMux` | the multiplexer over a tool task and its progress queue, as a transition system over every interleaving |
| `Fence`, `MarkerShape`, `FoldedMarkers`, `Prompt`, `PromptContents`, `Citations` | sanitising, budgeted prompt assembly, what of the request the model gets to read, and the citations and trace that must agree with it |
| `ReverseTunnel` | the bridge to a companion machine: connection registry, pending table, reply queues, body iterators |
| `RollingSummary` | conversation memory folded by background refreshes that fail and overlap |
| `DocumentVersions` | version lineages, their current flag, and the worker's failure and retry rules |
| `Sessions` | sessions and the expiring per-user index that makes them revocable |
| `CodeThread` | the fold of agent events into a thread |
| `Bm25Index` | postings, scoring, ranking and the prefix table of the retrieval harness |
| `PlanText`, `PlanFences`, `PlanDrift`, `PlanParity` | plan blocks printed from files and parsed back; drift verdicts over a history of plans; generator and checker composed |
| `SettingsStore` | the write path and the read path of runtime settings |

Objects the source updates in place are classes (`CycleFinder`, `FolderStore`, `Bridge`, `Conversation`,
`DocumentStore`, `Store`) whose class invariant `Valid()` is kept by every method, so it holds over every run of calls;
loops are methods proved against specification functions. A request or job that runs in one database transaction is one
method call. `Valid()` alone never is the promise: each method also states its whole new state and exactly when it
succeeds.

## Where the code does not do what its comments say

The model follows the code. Each of these is a theorem with the exact condition, and a lemma or method at a concrete
input that fails:

- `backend/app/documents/versions.py:101-102` says a version whose indexing fails gives way to the old one. The flag goes
  to the version right below, so all flags are as before if and only if the old current version was the lineage's highest
  (`DocumentVersions.FailedJobRestoresIff` for a failing job, `FailedUploadRestoresIff` for a job that cannot be queued).
  Activate version 1 of 2, upload version 3, let it fail: version 2 is current (`FailedJobMissesTheOldCurrent`).
- `backend/app/chat/prompt.py:460-463` says the assembled request is bounded by the budget plus the allowance. That holds
  if and only if the parts that cannot be dropped (prompt, question, memory blocks) fit on their own
  (`Prompt.RequestBoundedIff`; `Prompt.LongQuestionExceedsTheBound`).
- `backend/app/chat/memory.py:127` says the query reads every message the summary has not read. After a fold it does if
  and only if no message behind the fold has the time of its last one (`RollingSummary.RowsAfterFoldIff`;
  the run `RollingSummary.EqualTimesLoseAMessage` loses a message).
- `backend/app/core/settings_store.py:537` calls the chunking pair the one cross-field constraint among the runtime-safe
  keys. The weak-evidence threshold against `RRF_K` and `RETRIEVAL_CANDIDATE_LIMIT` is another, and the read path does not
  restate it: what it returns passes the validators if and only if the base's threshold clears the two values the rows
  give (`SettingsStore.ReadResultIsValidIff`; `SettingsStore.OneRowUpsetsTheThreshold`).
- `frontend/lib/code.ts:201-213`: a delta whose field is `id` rewrites a part's id; ids stay unique for every other event
  and for no such one (`CodeThread.KeepsUniqueIff`, with the failing state `CodeThread.Spoiled`).
- `scripts/_gen_slice6_plan.py:6-8` calls drift impossible by construction. The parsed block equals the file if and only if
  the printed text has no bare fence line and the file ends, but for line feeds, without blanks (`PlanText.RoundTripIff`;
  `PlanText.SomeFilesDoNotRoundTrip`; for the verdicts on a whole plan, `PlanParity.CheckPlan`).
- `backend/app/code/bridge.py:115-133`: a consumer that leaves before the body was ever asked for a chunk leaves the
  pending entry behind and sends no cancel; from the first chunk on it gives up the entry and sends one on a live
  connection (`ReverseTunnel.Bridge.Leave`; the run `ReverseTunnel.AbandonBeforeStart`).
- `backend/app/documents/folders.py:234-241` means to answer a name clash with 409. A query that precedes the check flushes
  what was written so far, so a clash below a parent breaks the table's constraint first: `FolderStore.Update` states
  exactly when the answer is `NameTaken` (the destination is the root) and when `ConstraintViolated`. Worse, a legal move
  to a place where its name is free is carried out if and only if the new name is also free where the folder still stands
  (`FolderStore.Update`; `FolderService.FittingMoveLeavesTree`, `FolderService.FittingMoveMayBeRefused`).
- `backend/app/core/security.py:48-51` relies on the index expiring no earlier than its sessions. Creating a session keeps
  that if and only if no live session of the user outlasts the new one (`Sessions.CreateKeepsIndexedIff`): always so under
  a constant lifetime, and not after the lifetime was shortened (`Sessions.ShorterLifetimeHidesASession`).

## Model

| member | source | states |
|---|---|---|
| WorkflowGraph.CycleFinder.Walk | frontend/lib/graph.ts:151-164 | one recursive walk keeps the open/done marks tied to the stack of open nodes and to a rank of the finished ones; it finishes the node or finds an edge lying on a real cycle |
| WorkflowGraph.CycleEdgeIndex | frontend/lib/graph.ts:147-171 | a returned edge's target leads back to its source; null exactly when no cycle is reachable from a declared node; for well-formed graphs null exactly when the graph is acyclic, and exactly when a topological order exists |
| WorkflowGraph.AncestorsOf | frontend/lib/graph.ts:95-108 | without duplicates, exactly the other nodes with a non-empty path to the given one |
| WorkflowGraph.AncestorIsEarlierInEveryOrder | frontend/lib/graph.ts:86-94 | whatever topological order is chosen, an ancestor comes strictly before the node |
| WorkflowGraph.NextNodeId | frontend/lib/graph.ts:78-84 | the loop ends, and returns the first unused id of n1, n2, ... |
| WorkflowGraph.AddNodeKeepsWellFormed | frontend/lib/graph.ts:271-337 | ids stay unique, edges keep their ends, exactly one id is added |
| WorkflowGraph.AddedNodeLandsBeforeAnswer | frontend/lib/graph.ts:262-288 | an unplaced node lands left of the answer node and right of all that was left of it; the others keep their horizontal order |
| WorkflowGraph.RemoveNodeKeepsWellFormed | frontend/lib/graph.ts:342-347 | the node goes together with exactly the edges that touch it |
| WorkflowGraph.DuplicateNodeKeepsWellFormed | frontend/lib/graph.ts:390-395 | the copy adds one id and no edge, and input and answer are never copied |
| WorkflowGraph.EditLeaves | frontend/lib/graph.ts:262-395 | each edit, told without the functions that carry it out: a new node takes the place it was dropped at or the first answer node's column, which moves right; the removed node goes with its edges and all else keeps its order; one edge is appended or taken out; a copy is the node again under a new id, 40 right and 60 down; nothing else changes |
| WorkflowGraph.AddEdgeAcyclicIff | frontend/lib/graph.ts:359-364 | drawing an edge keeps an acyclic graph acyclic exactly when its target did not already lead to its source |
| WorkflowGraph.EditKeepsAcyclicIff | frontend/lib/graph.ts:342-395 | of all edits only drawing an edge can close a cycle, under exactly that condition |
| WorkflowGraph.EditingKeepsRunnable | frontend/lib/graph.ts:271-395 | over any run of edits that draws only edges between nodes closing no path back, every graph on the way is well formed and acyclic |
| FolderTree.PathPrefixIff | backend/app/documents/folders.py:101-109 | text prefix of materialized paths and prefix of the id sequences are the same relation |
| FolderTree.PathPrefixIffAncestor | backend/app/documents/folders.py:223 | the subtree query selects exactly the folder and its descendants along parent pointers |
| FolderTree.ParentsAcyclic | backend/app/documents/folders.py:137-157 | in a consistent table no folder is its own ancestor |
| FolderTree.MoveKeepsLinks | backend/app/documents/folders.py:223-233 | a legal move keeps path, depth bound, collection and parent of every row in agreement |
| FolderTree.MovedChain | backend/app/documents/folders.py:228-233 | after a move the subtree's ancestor chains are cut at the moved folder and hung under the new parent's chain; all other chains stay |
| FolderService.PatchKeepsTree | backend/app/documents/folders.py:212-234 | a legal rename, move or both to a free name keeps the whole tree invariant, sibling names included |
| FolderService.FittingMoveLeavesTree | backend/app/documents/folders.py:213-234 | such a move would leave a consistent tree |
| FolderService.FittingMoveMayBeRefused | backend/app/documents/folders.py:213-234 | a concrete tree where it is refused all the same |
| FolderService.Deepest | backend/app/documents/folders.py:223-224 | the largest depth within the path-prefix subtree |
| FolderService.Relocate | backend/app/documents/folders.py:228-233 | the in-place rewrite of paths, depths and the parent yields the moved table |
| FolderService.MoveInto | backend/app/documents/folders.py:215-233 | carries out exactly the legal moves, and says exactly when the answer is a broken constraint, a missing parent, a foreign parent or the own subtree; otherwise it is too deep |
| FolderService.FolderStore.Create | backend/app/documents/folders.py:178-206 | keeps the invariant, succeeds exactly when parent, depth and name allow it, and hangs the new folder under its trimmed name at the end of its parent's chain; exactly when each refusal is given; a refusal changes nothing |
| FolderService.FolderStore.Update | backend/app/documents/folders.py:209-246 | keeps the invariant, succeeds exactly when acceptable, and changes name and parent of that folder only, as asked; a refusal changes nothing; a legal move to a free name is carried out exactly when the name is also free where the folder stands; exactly when each refusal is given, a name clash answered as such and one that breaks the constraint included |
| FolderService.FolderStore.Upload | backend/app/documents/router.py:251-365 | files a document exactly in an existing folder of its own collection, or in none; exactly when each refusal is given |
| FolderService.FolderStore.Delete | backend/app/documents/folders.py:249-256 | succeeds exactly on a folder without documents and children; not found or not empty otherwise; a refusal changes nothing |
| FolderService.CarryOut | backend/app/documents/folders.py:367-398 | every requested id ends in done or failed, where it stood among the ids; only done documents change: a move sets the folder and, into another collection, that and the status; the reindex queue is exactly the ones that changed collection or were to be reprocessed |
| FolderService.VerdictsMean | backend/app/documents/folders.py:367-398 | done and failed hold exactly the ids not turned away and those turned away, both in the order of the request |
| FolderService.FolderStore.Bulk | backend/app/documents/folders.py:351-410 | the bulk request keeps documents in folders of their own collection; a named folder stands for its collection; exactly when each refusal is given |
| FolderTotals.SubtreeTotals | backend/app/documents/folders.py:137-157 | the walk up the parent chains ends and gives each folder the integer sums of the counts and sizes of the rows in its subtree, and the latest of their dates |
| FolderTotals.GroupsAddUp | backend/app/documents/folders.py:140-147 | sums of grouped rows are sums over the documents behind them |
| FolderTotals.TotalsMeanSubtree | backend/app/documents/folders.py:137-157 | the count is the number of current documents filed anywhere under the folder's path, the size the sum of their sizes, and the change the latest of theirs, none exactly without documents |
| FolderTotals.FolderScopeMeansDescendants | backend/app/documents/folders.py:101-109 | a folder scope selects exactly the documents in the named folders and their descendants |
| FolderNames.BuildPath | backend/app/documents/folders.py:89-94 | the memoised recursion ends and only ever stores right paths |
| FolderNames.FolderPaths | backend/app/documents/folders.py:83-98 | every folder of the collection and no other gets the names along its ancestor chain |
| FolderNames.ReadablePathsDistinct | backend/app/documents/folders.py:83-98 | with unique sibling names and no separator in a name of the collection, readable paths name one folder each |
| FolderNames.CreateKeepsPathsDistinctIff | backend/app/documents/folders.py:83-98 | separators or not, creating a folder keeps the collection's readable paths distinct exactly when none of its folders already shows the new one's |
| FolderNames.PatchKeepsPathsDistinctIff | backend/app/documents/folders.py:83-98 | an accepted rename or move keeps them distinct exactly when no folder outside the subtree shows a path that one inside it will show |
| FolderNames.SlashInNameCollides | backend/app/documents/folders.py:92 | a separator in a name can make two folders show the same path |
| EventStream.Heartbeat | backend/app/chat/router.py:120-142 | whatever waits run out, the frames come through unchanged and in order, with one comment per expired wait right before the frame that was waited for |
| EventStream.SplitResumes | frontend/lib/api.ts:283-284 | splitting can be resumed from the leftover: later text never changes the frames already cut |
| EventStream.ReadStream | frontend/lib/api.ts:275-307 | for every chunking, the reader hands over the events of the completed frames of the whole text, and raises truncation exactly when none of them closes the stream |
| EventStream.FrameRoundTrip | backend/app/chat/router.py:111-116 | a printed frame is read back as its event, a keepalive as none |
| EventStream.CutStreamDelivers | frontend/lib/api.ts:278-302 | a stream cut anywhere delivers exactly the events whose frames arrived whole |
| EventStream.Delivery | frontend/lib/api.ts:252-308 | over any keepalives, cut and chunking: a prefix of the sent events, all of them if nothing was cut |
| EventStream.TruncationIffCut | frontend/lib/api.ts:304-307 | when only the last frame closes the stream, the truncation error is raised exactly when the stream was cut |
| ProgressMux.StepConserves | backend/app/chat/router.py:150-165 | in every step each line is in exactly one place: emitted, in the getter's hand, queued, or still to come |
| ProgressMux.StepLowersRank | backend/app/chat/router.py:157-166 | every step of tool, queue or consumer lowers a bound on the steps left |
| ProgressMux.SomeStepIsEnabled | backend/app/chat/router.py:157-166 | no state before the end is stuck |
| ProgressMux.EveryRunDelivers | backend/app/chat/router.py:145-169 | under every interleaving: each line once, in put order, then one result, last; no endless run and no deadlock |
| Fence.RedactedLacks | backend/app/chat/prompt.py:423 | one-pass replacement leaves no copy of a pattern that shares no character with the replacement |
| Fence.OnePassLeavesNoMarker | backend/app/chat/prompt.py:424 | removing marker shapes once never assembles a new one |
| Fence.SanitisedIsClean | backend/app/chat/prompt.py:420-424 | a sanitised text holds neither the nonce nor a marker shape |
| Fence.RedactsOnlyMatches | backend/app/chat/prompt.py:420-424 | nothing but matches goes, each for one replacement, and all the rest stays in its order |
| Fence.HarmlessStays | backend/app/chat/prompt.py:420-424 | a text without nonce and marker shapes comes through unchanged |
| MarkerShape.MarkerLengthIff | backend/app/chat/prompt.py:424 | the matcher finds exactly what the regular expression matches: two angles, white space, an optional slash, an optional END, EVIDENCE in any case, and everything up to the first closing angle, which is doubled |
| MarkerShape.PatternMatchesNowhere | backend/app/chat/prompt.py:420-424 | the regular expression matches nowhere in a sanitised text |
| Fence.FoldedLacks | backend/app/chat/prompt.py:472-552 | folding white space does not bring the nonce back |
| Fence.CutHasNoMarker | backend/app/chat/prompt.py:570-571 | a piece cut to a length holds no marker shape if the whole held none |
| FoldedMarkers.FoldedHasNoMarker | backend/app/chat/prompt.py:472-551 | folding white space assembles no marker shape |
| FoldedMarkers.PiecesHoldNoMarker | backend/app/chat/prompt.py:472-571 | no sanitised piece holds a marker shape: whole, cut, or folded to a line |
| Fence.FenceMarkersAreUnique | backend/app/chat/prompt.py:427-432 | around a body without the nonce, opening and closing marker occur once each, at their places |
| Prompt.OnlySpeakersPass | backend/app/chat/prompt.py:406-417 | exactly the non-empty user and assistant rows get through, in stored order |
| Prompt.FillEvidence | backend/app/chat/prompt.py:535-577 | the used items are a prefix, each rendered under its number; filled until the room beside the reserve is used up, the first item cut to exactly what is free if it alone is too large |
| Prompt.FillHistory | backend/app/chat/prompt.py:582-590 | the kept history is the longest newest stretch that fits |
| Prompt.ChooseContext | backend/app/chat/prompt.py:522-590 | evidence stays clear of the reserve, history gets the rest and, if nothing was rendered, the fence's share back |
| Prompt.BuildPrompt | backend/app/chat/prompt.py:435-610 | the messages are system text with memory, kept history, one fenced message if any evidence was rendered, and the question, in this order; the kept history is every speaking row from some row on, in stored order |
| Prompt.JoinedCost | backend/app/chat/prompt.py:530-556 | charging blocks and separators one by one bounds the cost of the joined text |
| Prompt.ContextWithinBudget | backend/app/chat/prompt.py:460-590 | memory, fence, joined evidence and history never exceed the budget less the overrun; if memory alone does, nothing else is kept |
| Prompt.RequestBoundedIff | backend/app/chat/prompt.py:460-463 | the whole request stays within budget plus allowance exactly when the parts that cannot be dropped do |
| Prompt.LongQuestionExceedsTheBound | backend/app/chat/prompt.py:502-506 | the longest question and a prompt above the allowance exceed budget and allowance together |
| Prompt.ReserveIsHistorys | backend/app/chat/prompt.py:535-540 | when the reserve was there, every newest stretch costing no more than it is kept, and a history that fits it is kept whole |
| PromptContents.HarmlessItemIsShown | backend/app/chat/prompt.py:541-572 | an item without nonce and marker shapes is shown under its number, label on one line, text word for word, or cut to a beginning that fits with the mark behind it |
| PromptContents.LabelShows | backend/app/chat/prompt.py:613-626 | a label names the file or reference, whether the user attached it, and the page and section if there are any |
| PromptContents.EvidenceIsShown | backend/app/chat/prompt.py:592-593 | every rendered block stands in the one evidence message |
| PromptContents.MemoryLinesInOrder | backend/app/chat/prompt.py:486-494 | each remembered fact that is not blank makes one line, in order |
| PromptContents.MemoryIsShown | backend/app/chat/prompt.py:466-500 | the system message starts with the prompt and shows summary and remembered facts, each on one line |
| PromptContents.MessagesWithinBound | backend/app/chat/prompt.py:460-463 | the messages as sent, counted one by one, stay within budget plus allowance if what cannot be dropped does and a fence costs what was charged for it |
| Citations.EvidenceCannotForgeTheFence | backend/app/chat/prompt.py:541-593 | for any evidence, labels, cuts and number of joined items, the fenced message opens and closes its fence exactly once |
| Citations.CitationsFrom | backend/app/chat/service.py:300-343 | in ascending order exactly the shown items that were cited or produced files, each under its number |
| Citations.BuildTrace | backend/app/chat/service.py:411-443 | every retrieved item, numbered, flagged by identity with a used one |
| Citations.TraceMatchesPromptIff | backend/app/chat/service.py:395-405 | identity flags mark exactly the shown items if and only if no omitted item is the same object as a shown one |
| Citations.RecordAnswer | backend/app/chat/service.py:560-616 | for pairwise different objects the trace flags exactly the items that were shown, and each citation names, under its number, a row flagged as shown and the block made from that item in the messages sent |
| ReverseTunnel.BodyIsItsOwnReplies | backend/app/code/bridge.py:115-128 | a body is exactly the decoded chunks posted for its own id up to the first end or error frame; unfinished, a prefix of that |
| ReverseTunnel.RunBody | backend/app/code/bridge.py:115-128 | one resumption of the body: the next chunk, the end, or waiting with an empty queue, taking frames in order and losing none |
| ReverseTunnel.DisconnectKeepsValid | backend/app/code/bridge.py:59-65 | a late disconnect of a replaced connection leaves the newer one registered |
| ReverseTunnel.Bridge.Connect | backend/app/code/bridge.py:51-57 | one live connection per user, the newest; the old one gets a close and each of its requests one error; all else stays |
| ReverseTunnel.Bridge.Disconnect | backend/app/code/bridge.py:59-65 | unregisters only the connection itself, puts a close on its stream and posts one error to exactly the requests listed on it, which are those that are not over and whose queue never overflowed |
| ReverseTunnel.Bridge.Get | backend/app/code/bridge.py:67-69 | a connection exactly when a live one of this user exists |
| ReverseTunnel.Bridge.Reply | backend/app/code/bridge.py:71-81 | a frame joins only its own request's queue; unknown ids change nothing, a full queue loses its place for good |
| ReverseTunnel.Bridge.Start | backend/app/code/bridge.py:92-104 | the request is listed and put on the connection's outgoing stream; nothing else changes |
| ReverseTunnel.Bridge.FirstFrame | backend/app/code/bridge.py:105-113 | an error as first frame ends the request and gives up its entry |
| ReverseTunnel.Bridge.FirstTimeout | backend/app/code/bridge.py:107-110 | giving up removes the entry and puts one cancel on the outgoing stream; nothing else changes |
| ReverseTunnel.Bridge.Pull | backend/app/code/bridge.py:119-130 | the entry is given up exactly when the body ends, which is at an end or error frame; no other request changes |
| ReverseTunnel.Bridge.Leave | backend/app/code/bridge.py:129-133 | a started body gives up its entry and puts one cancel on the outgoing stream exactly if the connection lives; an unstarted one stays listed (unless its queue had overflowed) and sends none |
| ReverseTunnel.AbandonBeforeStart | backend/app/code/bridge.py:92-135 | from any state, a request left after its first frame and before its body is pulled ends listed and uncancelled |
| RollingSummary.RowsAfterCovered | backend/app/chat/memory.py:131-136 | the rows read are exactly the messages the watermark does not cover |
| RollingSummary.RowsAfterFoldIff | backend/app/chat/memory.py:134-149 | after a fold the next query returns exactly the rest if and only if no message behind the fold has the time of its last one |
| RollingSummary.EqualTimesLoseAMessage | backend/app/chat/memory.py:131-150 | a run of six messages with window 2, of which the fourth and the fifth share a time: the summary does not stand for the fifth, and no query returns it again |
| RollingSummary.LosslessIff | backend/app/chat/memory.py:134-149 | nothing is missing exactly when the summary stands for each message whose time does not exceed the watermark, and for no other |
| RollingSummary.CommitIff | backend/app/chat/memory.py:136-150 | a commit makes summary and watermark agree whatever happened meanwhile; nothing is lost exactly when nothing was when it read and its fold did not end between two equal times |
| RollingSummary.Conversation.Append | backend/app/chat/memory.py:131-136 | a new message neither loses nor recovers one |
| RollingSummary.Conversation.IncreasingTimesLoseNothing | backend/app/chat/memory.py:122-150 | over every run of failing and overlapping refreshes, while times increase: the summary stands exactly for the messages up to the watermark, and for none of the newest as many as the window holds |
| RollingSummary.LinesFollowFold | backend/app/chat/memory.py:166 | the summariser sees one line for each folded message of user or assistant, in order: the role, and the text or its first 2000 characters |
| RollingSummary.AcceptedMeans | backend/app/chat/memory.py:164-190 | what is stored is the head of the trimmed reply; nothing if nobody spoke, the reply is empty or more than twice too long |
| RollingSummary.Conversation.Schedule | backend/app/chat/memory.py:65-83 | the newest refresh is the one in flight |
| RollingSummary.Conversation.Begin | backend/app/chat/memory.py:123-139 | folds exactly when at least four messages lie outside watermark and window, and then exactly those; never one of the newest window |
| RollingSummary.Conversation.Finish | backend/app/chat/memory.py:140-161 | on success summary and watermark stand for what this refresh had read plus its fold, each message once and in order, with the exact condition for losing none; a failure changes neither |
| RollingSummary.Conversation.Done | backend/app/chat/memory.py:83 | the callback forgets the refresh in flight only if it is this one |
| RollingSummary.Conversation.RefreshAlone | backend/app/chat/memory.py:113-161 | after a refresh that did not fail, fewer than four messages are outside watermark and window |
| DocumentVersions.FindPrevious | backend/app/documents/versions.py:53-58 | the existing version right below, if any |
| DocumentVersions.RevertCurrentOnFailure | backend/app/documents/versions.py:48-66 | exactly a current version above an older one passes the flag, to the one right below; at most one current at every flush |
| DocumentVersions.AddVersion | backend/app/documents/versions.py:106-144 | the new version's number is one above the highest, it alone is current, and the version that was is superseded |
| DocumentVersions.AbandonVersion | backend/app/documents/versions.py:145-152 | when the job cannot be queued the highest older version becomes current, and the new one is superseded |
| DocumentVersions.FailedUploadRestoresIff | backend/app/documents/versions.py:145-152 | when the job cannot be queued, the old flags are restored exactly when the old current version was the highest |
| DocumentVersions.FailedJobRestoresIff | backend/app/documents/versions.py:101-102 | when the job fails, whatever status it had reached, the old flags are restored exactly under the same condition |
| DocumentVersions.FailedJobMissesTheOldCurrent | backend/app/documents/versions.py:101-102 | a concrete lineage where they are not |
| DocumentVersions.DocumentStore.UploadFirst | backend/app/models/document.py:36-40 | a first upload is version 1 and current |
| DocumentVersions.DocumentStore.UploadVersion | backend/app/documents/versions.py:92-155 | accepted exactly for a known document and a file unlike the current one; exactly when each refusal is given; a refusal changes nothing |
| DocumentVersions.DocumentStore.Activate | backend/app/documents/versions.py:159-179 | exactly an indexed version of the same lineage becomes the only current one; exactly when each refusal is given |
| DocumentVersions.DocumentStore.MarkFailed | backend/app/worker.py:76-92 | never overwrites a finished document; marks any other failed |
| DocumentVersions.DocumentStore.ProcessDocument | backend/app/worker.py:95-171 | how each end of a job leaves the document; only a shutdown with tries left leaves it unfinished, and a timeout or shutdown never touches a finished one |
| DocumentVersions.FailDocument | backend/app/rag/pipeline.py:203-230 | a failing document is marked and gives the flag down |
| DocumentVersions.FailureLeavesIndexedCurrent | backend/app/documents/versions.py:101-102 | if all older versions are indexed, a failing current version leaves an indexed one current |
| Sessions.CreateKeepsIndexedIff | backend/app/core/security.py:43-55 | every live session stays findable exactly when the user has none that outlasts the new one |
| Sessions.RevocationKeepsIndexed | backend/app/core/security.py:72-76 | revoking touches no live session of anybody else |
| Sessions.Store.CreateSession | backend/app/core/security.py:43-55 | with a constant lifetime the index covers every live session and expires no earlier |
| Sessions.Store.GetSessionUser | backend/app/core/security.py:58-77 | whoever is let in can be shut out: the session is live, and the index a revocation reads names it |
| Sessions.Store.DeleteSession | backend/app/core/security.py:62-63 | logout drops the session only |
| Sessions.Store.RevokeUserSessions | backend/app/core/security.py:66-77 | afterwards no live session names the user; exactly the sessions in the live index are dropped, and counted |
| Sessions.ShorterLifetimeHidesASession | backend/app/core/security.py:43-55 | with a shortened lifetime a session can outlive the index that names it |
| CodeThread.EventKeepsUnique | frontend/lib/code.ts:188-255 | message, part, permission and question ids stay unique |
| CodeThread.KeepsUniqueIff | frontend/lib/code.ts:201-213 | the only exception is a delta that rewrites an id |
| CodeThread.EventFollows | frontend/lib/code.ts:167-255 | each event stores what it carries and nothing else: an info replaces the message's, a part the part with its id at its place or last, a delta grows one field, an ask is listed once, a reply takes it away, status and error are set; events of other sessions do nothing |
| CodeThread.MessagesInMentionOrder | frontend/lib/code.ts:174-185 | over any stream the messages are the mentioned ones in first-mention order |
| CodeThread.InfoAndPartCommute | frontend/lib/code.ts:191-200 | a message's info and one of its parts may come in either order |
| CodeThread.InfoAndDeltaCommute | frontend/lib/code.ts:191-214 | and so may its info and a delta |
| CodeThread.PartHoldsItsDeltas | frontend/lib/code.ts:201-214 | a part that nobody sends whole shows the concatenation of its deltas |
| CodeThread.PartShowsWhatWasTold | frontend/lib/code.ts:191-214 | over any stream a part shows the text of its last whole update followed by the deltas since |
| CodeThread.ListedIffOpen | frontend/lib/code.ts:215-235 | over any stream the permissions and questions listed are exactly those asked in the session and not replied to since |
| Bm25Index.Build | scripts/eval_retrieval.py:180-190 | postings, lengths and average length of the documents |
| Bm25Index.FreqCounts | scripts/eval_retrieval.py:185-188 | a term's frequency is the number of places where it stands in the document |
| Bm25Index.AverageMeans | scripts/eval_retrieval.py:186-190 | the average spreads the sum of the lengths over the documents; an empty one counts as one token long |
| Bm25Index.AddDocument | scripts/eval_retrieval.py:185-188 | one document's counts are appended to exactly its terms' postings |
| Bm25Index.PostingListFacts | scripts/eval_retrieval.py:187-188 | a posting list names each document holding the term once, with its count |
| Bm25Index.PostingListCounts | scripts/eval_retrieval.py:192-196 | the document frequency in a score is the number of documents that hold the term |
| Bm25Index.IdfMeans | scripts/eval_retrieval.py:192-196 | a term's weight is the logarithm of (n + 1) / (df + 1/2) |
| Bm25Index.RarerWeighsMore | scripts/eval_retrieval.py:192-196 | for a growing logarithm a rarer term weighs no less, and no weight is negative |
| Bm25Index.ShareMeans | scripts/eval_retrieval.py:207-209 | the share times its denominator is weight times frequency times (k1 + 1) |
| Bm25Index.ShareGrows | scripts/eval_retrieval.py:207-209 | shares grow with weight and frequency, fall with length, and never exceed k1 + 1 times the weight |
| Bm25Index.RarerTermContributesMore | scripts/eval_retrieval.py:204-209 | a term listed for fewer documents, at least as frequent in a document that is no longer, contributes no less, and never less than nothing |
| Bm25Index.ScoreTerm | scripts/eval_retrieval.py:205-209 | walking one posting list adds the term's share to each document that holds it, and to no other |
| Bm25Index.Rank | scripts/eval_retrieval.py:212 | every scored document once, higher scores first, ties by id |
| Bm25Index.RankingIsUnique | scripts/eval_retrieval.py:210-212 | a set of scores has one ranking only |
| Bm25Index.Search | scripts/eval_retrieval.py:202-213 | the answer is the head of the ranking by scores that every matching document would get from its own counts |
| Bm25Index.EnumerationOrderIsIrrelevant | scripts/eval_retrieval.py:204-209 | the order in which the matched terms are walked does not matter if no document holds more than two of them, or if addition is associative |
| Bm25Index.ThreeTermsMayDisagree | scripts/eval_retrieval.py:204-209 | with three terms in one document and a floating-point sum (three significant digits, halves to even) it can |
| Bm25Index.BuildPrefixTable | scripts/eval_retrieval.py:233-238 | under every prefix of 2 to 12 characters exactly the terms that start with it |
| Bm25Index.StemStripsLongest | scripts/eval_retrieval.py:120-139 | with the particles longest first, the longest strippable particle goes and two characters always stay |
| Bm25Index.PrefixMatchIsExact | scripts/eval_retrieval.py:240-244 | exactly the indexed terms starting with the first 12 characters of the stem, each once |
| PlanText.Parse | scripts/check_plan_parity.py:127-167 | parsing a printed plan gives back its steps, whatever titles, headers, prose and files it is made of |
| PlanText.WholeRoundTrip | scripts/_gen_slice6_plan.py:19-20 | a printed file is parsed back, word for word up to trailing white space, under the current step |
| PlanFences.FenceOfIff | scripts/check_plan_parity.py:135-149 | a line is a fence exactly if it is white space, three back quotes, a tag and white space |
| PlanFences.ClosesIff | scripts/check_plan_parity.py:137-142 | a line closes a block exactly if it is a fence without tag, indented as far as the opening one |
| PlanFences.IndentedBlock | scripts/check_plan_parity.py:135-151 | a block at any indentation is recorded with its lines as they stood behind the indentation, and its tag in lower case |
| PlanText.PartRoundTrip | scripts/check_plan_parity.py:135-165 | each printed part does to the parser what its kind says, and nothing else |
| PlanText.PlanRoundTrip | scripts/_gen_slice6_plan.py:19-37 | one step per header, with the task number above it, and with all prose and files up to the next header or title |
| PlanText.FirstBlock | scripts/check_plan_parity.py:136-145 | a fence collects exactly the lines up to the first bare fence line |
| PlanText.RoundTripIff | scripts/check_plan_parity.py:170-171 | the compared block equals the file exactly when the text has no bare fence line and ends without blanks |
| PlanText.SomeFilesDoNotRoundTrip | scripts/_gen_slice6_plan.py:19-20 | a file ending in a blank and a file with a bare fence line do not come back |
| PlanDrift.ReadPlans | scripts/check_plan_parity.py:205-212 | each plan stands in the history as it was written, its tasks numbered on from one above the highest earlier task |
| PlanDrift.Unrun | scripts/check_plan_parity.py:214-223 | a task is unrun exactly when it creates nothing or something it creates is missing |
| PlanDrift.PairsMean | scripts/check_plan_parity.py:174-191 | the blocks whose language fits go with the paths one by one if there are as many, otherwise all of them (or all blocks if none fits) with the only path, otherwise nothing is paired |
| PlanDrift.JudgePairs | scripts/check_plan_parity.py:277-294 | a pair is reported exactly when its file is there, disagrees, and no later task mentions its path |
| PlanDrift.Classify | scripts/check_plan_parity.py:239-294 | exactly the drifting pairs of the compared steps are reported |
| PlanDrift.LaterPlanOnlyExcuses | scripts/check_plan_parity.py:225-294 | a later plan changes one verdict only: a drift becomes superseded exactly when it mentions the path |
| PlanDrift.LaterPlanAddsNoDrift | scripts/check_plan_parity.py:194-294 | the drift of an earlier step after appending a plan is what it was, less the paths the plan mentions |
| PlanParity.PrintedBlockDriftsIff | scripts/check_plan_parity.py:277-294 | a block printed from the file on disk drifts exactly when it is a whole file that ends in blanks and no later task mentions it; a slice never does |
| PlanParity.CheckPlan | scripts/_gen_slice6_plan.py:4-10 | generator and checker composed: a plan printed from the files now on disk, none with a bare fence line, gives drift exactly when some compared whole file ends in blanks and nothing excuses it |
| SettingsStore.LoadOverrides | backend/app/core/settings_store.py:514-519 | exactly the rows of runtime-safe keys are kept, with their values |
| SettingsStore.ParseMeans | backend/app/core/settings_store.py:63-83 | a text is the row without surrounding white space; four words mean true and four false, in any case; a number counts exactly within its bounds; anything else is unusable |
| SettingsStore.ApplyOverrides | backend/app/core/settings_store.py:522-548 | whatever the rows, all that parses is applied, or all but the chunking pair |
| SettingsStore.ValidatedSettings | backend/app/core/settings_store.py:551-572 | accepts exactly when every key is known, every value parses and the validators pass |
| SettingsStore.ReadPathIsSafe | backend/app/core/settings_store.py:522-548 | overridden fields are in range, the chunking pair stays a pair, all other fields are the base's |
| SettingsStore.AcceptedIsApplied | backend/app/core/settings_store.py:551-554 | every accepted override set is applied in full, with equal values |
| SettingsStore.ReadResultIsValidIff | backend/app/core/config.py:825-861 | the read path's result passes the validators exactly when the base's weak-evidence threshold clears the fusion constant and candidate limit that rows and base give |
| SettingsStore.OneRowUpsetsTheThreshold | backend/app/core/config.py:850-853 | one in-range row can break that |

## Left out

- Workflow executor and server-side graph validation, planner, approval store, rank fusion, vector search and chunking: not part of this model.
- Model calls, embeddings, mail, HTTP upstreams, file uploads and drivers: their results are arbitrary inputs, possibly failing.
- `updateNode`, `placeGraphError`, `referenceOptions` and the configuration payloads of graph nodes: they would only add easy members.
- FolderService.FolderStore.Update: serialised requests only. The new parent is read without a lock, so two interleaved moves are not covered.
- FolderService.FolderStore.Bulk: files on disk and the outcome of queueing are not modelled; a document deleted in bulk may leave its lineage without a current version, which `DocumentVersions.DocumentStore.Delete` allows.
- FolderTotals.SubtreeTotals: the grouped query is an input that satisfies `GroupsByFolder`.
- EventStream.ReadStream: characters instead of UTF-8 bytes; JSON is an abstract codec that prints no line feed and parses back what it printed. `openOcEvents` runs the same reader loop and reconnects; the reconnection is not modelled.
- EventStream.Heartbeat: time is the number of waits that ran out before each frame.
- ProgressMux.EveryRunDelivers: a consumer that stops iterating, and the cancellation of the tool that follows, are not modelled.
- The regular-expression engine: the one marker pattern is a hand-written matcher, proved against the pattern's own pieces, including the dotted and dotless i that case-insensitive matching takes for an I.
- Prompt.BuildPrompt: tokens are an abstract count, subadditive on concatenation, with cuts of k tokens costing at most k; images are not charged by the source and not modelled.
- PromptContents.MessagesWithinBound: assumes that a fence costs no more than was measured for it around one character, as the source does.
- Prompt.ContextWithinBudget: assumes that sound count; when memory alone exceeds the budget, the clause that nothing else is kept also needs a fence that does not cost less than nothing.
- Citations.EvidenceCannotForgeTheFence: for fewer than 10^15 items, whose printed numbers are shorter than a nonce, and a nonce of the generated shape.
- Citations.CitationsFrom: the numbers found in square brackets are an input; the copied metadata fields are not modelled.
- ReverseTunnel.Bridge.Disconnect: assumes reply queues below their bound; overflow inside it is not modelled.
- ReverseTunnel.Bridge.Start: the outgoing queue's bound and the waiting it causes are not modelled.
- ReverseTunnel.Bridge.Reply: a frame's chunk is already decoded; a decoding error is not modelled.
- RollingSummary.Conversation.Finish: both columns are written in one commit and the window is constant. An older overlapping refresh may set summary and watermark back together; they then still agree. Only changed columns are written, so a refresh whose new summary equals the one it had loaded moves the watermark alone; if another refresh replaced the summary meanwhile, the two come apart, which is not modelled.
- `await_inflight` and `drain`: waiting with a time limit, no state of their own.
- DocumentVersions.DocumentStore.ProcessDocument: the statuses the pipeline passes through are an input; chunks and vectors are not modelled.
- DocumentVersions.DocumentStore.UploadVersion: two uploads to one lineage are serialised by the row locks the source takes.
- Sessions.Store.CreateSession: the three commands happen at one time; a crash between them is not modelled.
- CodeThread.EventFollows: a delta that rewrites an id is left to `CodeThread.KeepsUniqueIff`.
- CodeThread.PartShowsWhatWasTold: for fields other than the part's own id, message, session and type, and deltas that rewrite no id.
- CodeThread.PartHoldsItsDeltas: for fields other than the part's own id, message, session and type.
- Bm25Index.RarerWeighsMore: any logarithm that is zero at one and grows.
- Bm25Index.ScoreTerm: shares are computed over real numbers, but accumulated with any addition that has a neutral zero; the logarithm and the tokenizer are parameters.
- Bm25Index.EnumerationOrderIsIrrelevant: for more than two held terms and a rounding addition no exact condition is given; `Bm25Index.Rounding` is a floating-point addition with three significant digits in place of 53.
- PlanText.Parse: task and step headers are recognised by parameters; block line numbers, verbs and path extraction are not modelled. A slice printed by `between` is a file's text like any other.
- PlanParity.CheckPlan: for printed texts without a bare fence line; behind one, the rest of the plan is read as something else.
- PlanDrift.Classify: the skipped and ambiguous lists and the exit code for bare file names are not modelled.
- SettingsStore.ReadResultIsValidIff: the validators that read one field are an abstract predicate that the bounds in the table imply.
