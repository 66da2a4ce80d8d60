# Verified model of the mail workspace

This project models the decisions that a human-in-the-loop mail system makes on its own: what a user is shown while an
assistant streams, when mail may be deleted and how it comes back, which mailbox an agent sends from, how often it may
reply, who may sign in, and what a person is told before approving a cleanup. It proves properties of those decisions
over all inputs and, where state is kept, over all runs. `dafny verify dfyconfig.toml` checks it.

Code that updates state is modelled as classes and loops and tied to a specification function; the properties are
lemmas about those functions. Remote calls are parameters: a call may succeed, fail, or take effect without answering.

| module | models |
|---|---|
| `Text`, `Ordering`, `FirstSeen` | strings, stable sorting, de-duplication in first-seen order |
| `MarkerStream`, `ServerSentEvents`, `StreamPipeline` | the streaming assistant: engine, relay, browser |
| `MailArchive`, `CleanupPlan`, `CleanupBatches`, `CleanupEffects`, `CleanupService` | cleanup plans, verified archives, batches, undo, retention |
| `CleanupPreview`, `CleanupPreviewOrder` | the preview of a cleanup, backend and browser copies |
| `AgentBindings` | agents, their mailbox bindings and the cached send identity |
| `ReplyCaps`, `ReplyWindows`, `ReplyReferences`, `ThreadDigest`, `ReplyHtml` | the agent-reply runtime |
| `ConversationGrouping`, `GmailTriage`, `GraphBatches`, `PlanExecution` | the engine's grouping, triage and batch loops |
| `AccessList`, `IdentityLinking`, `AccessTokens` | sign-in, linking, personal access tokens |

The event-stream frames follow sections 9.2.5 and 9.2.6 of the WHATWG HTML Living Standard, restricted to what the
program prints and reads.

## What the proofs found

Where a property one would expect is false of the code, the code is modelled as it is, a lemma gives the failing input,
and the exact condition is proved.

- A FAILED cleanup batch cannot be approved again, although comments in
  `backend/src/connected-accounts/connected-accounts.service.ts:783-790` and in `cleaner-engine/app.py:438-443` speak of
  a retry (`CleanupBatches.ApproveActsOnPendingOnly`, `FailedStaysFailed`). Mail deleted by a call whose answer was lost
  stays archived, but no row leads to the archive (`UndoableIffConfirmed`, `ApprovedUndoableIffConfirmed`,
  `CleanupEffects.UnconfirmedDeletionIsStranded`).
- An archive of messages whose ids mangle to one file name fails verification unless their bytes are equal
  (`MailArchive.VerifiedIffNamesakesAgree`, `CollidingIdsFailVerification`).
- Patching an agent's mailbox to the empty string caches the empty string (`AgentBindings.PerformKeepsConsistency`,
  `EmptyPatchBreaksTheCache`).
- The comments at `backend/src/agents/agents.service.ts:286-310` say that the oldest sendable binding is promoted. That
  holds in every state with at most one primary, but with two a younger one can be taken
  (`AgentBindings.PromotesOldestIff`, `OnePrimaryPromotesOldest`, `TwoPrimariesPromoteTheYounger`).
- Preview rows depend on the order of the plan when a shown sender ties with another one in count and collation
  (`CleanupPreviewOrder.PreviewIgnoresOrderIff`, `SpellingsDependOnOrder`), and the stored rows differ from the
  browser's when the two locales order senders with equal counts differently (`StoredAndDerivedRowsAgreeIff`,
  `LocalesShowDifferentRows`).
- A row whose Keycloak id is the empty string counts as unlinked and can be taken over
  (`IdentityLinking.LoginChangesSetIdIff`, `EmptySubjectIsReplaced`).
- A token that expires after the year 9999 is refused as expired at once (`AccessTokens.ExpiryIsJudgedByTimeIff`,
  `FarExpiryIsRefusedAtOnce`).
- Not every inbound message that would be answered gets a reply: two different messages of one thread with the same
  time of receipt share one external reference. Over all runs a message is composed exactly if none with the same
  mailbox, thread and time was before (`ReplyReferences.ComposedIffNoneBefore`, `SecondIsComposedIff`,
  `SameSecondSharesOneReply`).
- The rolling caps hold for half-open windows (`ReplyCaps.MailboxCapHolds`, `ThreadCapHolds`). A window counting both
  ends can hold twice the cap (`ReplyWindows.MailboxClosedWindowMayHoldTwice`, `ThreadClosedWindowMayHoldTwice`) and
  never more (`ClosedWindowsOfARun`); all of them keep the cap exactly if each composing handler would also have passed a
  gate that counts the row written 24 hours before its own (`MailboxClosedWindowsIff`, `ThreadClosedWindowsIff`).
- A count of moved Microsoft messages is a lower bound, exact if and only if every call moved what it reported
  (`GraphBatches.CountIsALowerBound`, `CountIsExactIff`, `UnansweredMovesAreNotCounted`).

## Assumptions

- Each handler is one atomic step; the code does not lock between reading and acting.
- JSON writers and readers are any pair that round-trips without newlines; the archive's hash is injective; the object
  store returns what was stored; reading a zip member by name gives the last one written under it.
- Case mapping, character classes, white-space stripping in Python, the collation order and the name inside a sender
  header are function parameters. The collation is a total preorder where ranking is concerned.
- Composing a reply keeps the contract at `README.md:50-52`: idempotent on the external reference, at most one row per call,
  mode SEND only if a send was requested.
- A mailbox id holds no colon, being a UUID, and a time of receipt is a UTC stamp as the mail server gives it
  (`backend/src/stalwart/james.client.ts:1401-1410`).
- A Microsoft batch that is answered reports on its own requests only, and reports as moved only what it moved.
- A personal access token is checked at a moment with a four-digit year; moments are UTC calendar fields.

## Model

| member | source | states |
|---|---|---|
| `MarkerStream.ChatStream` | cleaner-engine/ai/llm_analyzer.py:292-343 | for every cutting of the model text into deltas: after a normal end the tokens spell exactly the text before the first marker and one actions event, parsed from exactly the text after it, comes last; after an exception the tokens before the error note are a prefix of the received prose, short by at most 12 characters |
| `MarkerStream.RunTurn` | cleaner-engine/ai/llm_analyzer.py:312-343 | the generator loop with its look-back buffer yields the events of the delta-by-delta fold, on both the normal and the failing path |
| `MarkerStream.SearchingTheTailSuffices` | cleaner-engine/ai/llm_analyzer.py:310-331 | searching only the held-back tail plus the new delta finds the first marker of the whole received text |
| `MarkerStream.FeedAllKeepsUp` | cleaner-engine/ai/llm_analyzer.py:312-334 | after any deltas the tokens and buffer are exactly the received prose, or the marker has been found at its first occurrence and everything after it collected |
| `MarkerStream.MarkerStays` | cleaner-engine/ai/llm_analyzer.py:315-323 | later deltas never move a marker already found |
| `MarkerStream.TurnCompletes` | cleaner-engine/ai/llm_analyzer.py:335-343 | a stream that ends normally is a completed turn |
| `MarkerStream.TurnBreaks` | cleaner-engine/ai/llm_analyzer.py:337-341 | a stream that raises shows a prefix of the prose, then the error note, then an empty actions event |
| `MarkerStream.ProseAndActionsPartitionTheText` | cleaner-engine/ai/llm_analyzer.py:289-309 | what may be shown never contains the marker, and prose, marker and action text together are the whole text |
| `ServerSentEvents.SplitPrinted` | backend/src/assistant/assistant-stream.controller.ts:192-196 | splitting printed frames at blank lines gives back exactly the printed bodies, with nothing left over |
| `ServerSentEvents.SplitAppend` | backend/src/assistant/assistant-stream.controller.ts:192-196 | splitting text that arrives in two pieces, carrying the unfinished tail over, finds the same frames as splitting it at once |
| `ServerSentEvents.ParseFrame` | backend/src/assistant/assistant-stream.controller.ts:493-506 | the line loop computes the decoding: last event name (default "message"), data lines less one leading space, joined by newlines, no frame without data or with unreadable JSON |
| `ServerSentEvents.DecodePrinted` | cleaner-engine/app.py:268-270 | a frame printed with any newline-free JSON writer decodes to its event and value |
| `ServerSentEvents.Drain` | backend/src/assistant/assistant-stream.controller.ts:193-208 | the inner loop handles exactly the complete frames in the buffer, in order, and keeps the rest |
| `ServerSentEvents.ReadLoop` | backend/src/assistant/assistant-stream.controller.ts:185-208 | the read loop over any chunks equals handling the frames of their concatenation: the frames do not depend on the cuts |
| `ServerSentEvents.DecodeNamed` | backend/src/assistant/assistant-stream.controller.ts:493-506 | the data of a frame are its data lines joined by newlines, and its event is the one named |
| `ServerSentEvents.DecodeUnnamed` | backend/src/assistant/assistant-stream.controller.ts:493-506 | or "message" if none is |
| `ServerSentEvents.ThrowEndsHandling` | backend/src/assistant/assistant-stream.controller.ts:188-214 | once a handler throws, no later frame is handled |
| `ServerSentEvents.HandleStops` | backend/src/assistant/assistant-stream.controller.ts:188-214 | what handling gives is what the items before the first throwing one give |
| `ServerSentEvents.LaterTextIsIgnored` | frontend/lib/api.ts:245-273 | text after a throwing frame changes nothing |
| `StreamPipeline.EngineStream` | cleaner-engine/app.py:683-701 | the engine writes one frame per event and a final done frame, for every cutting of the model text |
| `StreamPipeline.Relay` | backend/src/assistant/assistant-stream.controller.ts:185-215 | the backend writes what its reactions to the decoded frames dictate: tokens re-printed, actions staged, one interruption note if reading fails or staging throws, and a final done frame |
| `StreamPipeline.WriteFrames` | backend/src/assistant/assistant-stream.controller.ts:161-163 | the printer writes the frames one after the other |
| `StreamPipeline.Browse` | frontend/lib/api.ts:245-273 | the browser reports what the frames of the concatenated text say, whatever the chunks |
| `StreamPipeline.RelayKeepsTokens` | backend/src/assistant/assistant-stream.controller.ts:197-205 | the relay passes on exactly the non-empty token deltas of the frames it handles, in order |
| `StreamPipeline.RelayedShows` | backend/src/assistant/assistant-stream.controller.ts:197-205 | what the relay passes on shows the browser exactly the texts and staged cards of the frames, in order |
| `StreamPipeline.BrowserShowsDeltas` | frontend/lib/api.ts:245-272 | the browser shows exactly the non-empty deltas of well-formed frames and rejects none |
| `StreamPipeline.TruncatedFrames` | backend/src/assistant/assistant-stream.controller.ts:188-197 | a prefix of printed frames decodes to a prefix of the frames |
| `StreamPipeline.Delivery` | backend/src/assistant/assistant-stream.controller.ts:161-215 | for every list of frames, every truncation and both cuttings: exactly the frames that arrived complete are handled, and the browser receives their non-empty token deltas of the frames before the first one whose reaction is a throw, in the order the engine wrote them, and in the same order the non-empty lists of cards these frames were staged as, plus the interruption note exactly when there is such a frame or the upstream was lost |
| `StreamPipeline.WholeDelivery` | frontend/lib/api.ts:245-273 | untruncated, exactly the deltas and cards of the frames before the first throwing one arrive, and the note exactly if there is one |
| `StreamPipeline.TurnArrives` | cleaner-engine/app.py:683-701 | for every cutting at all three stages, what the browser shows of a completed turn is its prose, followed by the note only if staging threw, and the one card list its actions were staged as, if any |
| `StreamPipeline.BrokenTurnArrives` | cleaner-engine/app.py:683-701 | after an exception in the model stream the browser shows a prefix of the received prose, short by at most 12 characters, then the error note |
| `StreamPipeline.AssistantTurn` | backend/src/assistant/assistant-stream.controller.ts:161-215 | engine, relay and browser run in sequence: the user sees exactly the text before the marker, or after an exception a prefix of it and the error note, and is handed exactly the cards that the proposed actions were staged as |
| `MailArchive.CreateArchive` | cleaner-engine/backup/manager.py:207-283 | the export loop builds the archive with one entry and one zip member per id, in order, or nothing if an id cannot be exported |
| `MailArchive.FileNamesAgree` | cleaner-engine/backup/manager.py:230-259 | two ids share a zip member name exactly when their mangled ids are equal |
| `MailArchive.PlainIdsAreApart` | cleaner-engine/backup/manager.py:369-370 | ids that the mangling leaves alone get different file names |
| `MailArchive.ReadIsLast` | cleaner-engine/backup/manager.py:300-312 | reading a name yields the last member written under it |
| `MailArchive.EntryStates` | cleaner-engine/backup/manager.py:225-262 | entry and member of a written archive carry id, labels, size and bytes of their message |
| `MailArchive.VerifyArchive` | cleaner-engine/backup/manager.py:285-324 | verification succeeds exactly when every entry's recorded hash is the hash of what its file name reads |
| `MailArchive.IntactMeansSameBytes` | cleaner-engine/backup/manager.py:300-318 | an entry of a written archive is intact exactly when its file name reads its own bytes |
| `MailArchive.VerifiedIffNamesakesAgree` | cleaner-engine/backup/manager.py:285-324 | a written archive verifies exactly when all messages sharing a mangled file name have equal bytes |
| `MailArchive.PlainIdsAlwaysVerify` | cleaner-engine/backup/manager.py:369-370 | archives of ids made of kept characters always verify |
| `MailArchive.CollidingIdsFailVerification` | cleaner-engine/backup/manager.py:369-370 | two ids mangled to one name with different contents make verification fail |
| `MailArchive.RestoreLabelsKeepsTheRest` | cleaner-engine/providers/gmail_provider.py:556-575 | restore re-applies every label but TRASH and SPAM |
| `MailArchive.RestoreArchive` | cleaner-engine/backup/manager.py:326-352 | the restore loop imports every intact entry the provider accepts, in order, and lists the others as failed |
| `MailArchive.RestoreIsExact` | cleaner-engine/backup/manager.py:326-352 | every entry is counted once; nothing but exact exports is imported; there is no failure exactly when the archive verifies and the provider accepts everything, and then exactly the exported bytes of every id are imported, in order, with labels minus TRASH and SPAM |
| `MailArchive.RestoreCounts` | cleaner-engine/backup/manager.py:326-352 | restored plus failed is always the number of entries |
| `MailArchive.VerifiedArchiveHolds` | cleaner-engine/backup/manager.py:285-324 | a verified archive holds every exported message byte for byte |
| `MailArchive.RestoreBringsBack` | cleaner-engine/backup/manager.py:326-352 | a verified archive restores without failure into an accepting mailbox, and a restore without failure imports every message the archive holds |
| `MailArchive.RestoreFollows` | cleaner-engine/backup/manager.py:335-350 | up to every entry: only expected imports, no failure exactly when all entries so far are intact and accepted, and then exactly the expected imports in order |
| `CleanupPlan.UnprotectedMeans` | backend/src/connected-accounts/connected-accounts.service.ts:1161-1190 | a message classified unprotected is not starred, and its domain matches no protected domain or suffix |
| `CleanupPlan.DomainOfNamed` | backend/src/connected-accounts/connected-accounts.service.ts:1293-1300 | the domain of a sender written as a name and an address in angle brackets is what follows the address's last @, trimmed and in lower case |
| `CleanupPlan.ProtectedByAddressIff` | backend/src/connected-accounts/connected-accounts.service.ts:1184-1195 | with or without a name and brackets, a message is unprotected if and only if it is not starred and the domain of the address is readable, on no list and without a listed ending |
| `CleanupPlan.UnreadableIsProtected` | backend/src/connected-accounts/connected-accounts.service.ts:1184-1188 | a sender without an @, or none, is always protected |
| `CleanupPlan.KeptAddressesAreSetApart` | backend/src/connected-accounts/connected-accounts.service.ts:222-248 | a starred message or one from such a domain stands among the protected ones and never among the safe ones, nor does its id when ids are distinct |
| `CleanupPlan.TargetedIff` | backend/src/connected-accounts/connected-accounts.service.ts:94-101 | without a query a message is targeted exactly when it carries the label that the table gives for a chosen category |
| `CleanupPlan.PlanKeepsOrder` | backend/src/connected-accounts/connected-accounts.service.ts:222-248 | safe and protected list hold exactly the rows they should, each once for its message, in the order fetched, and all fetched messages are counted as reviewed |
| `CleanupPlan.EnrichedIsComplete` | backend/src/connected-accounts/connected-accounts.service.ts:1126-1159 | a message that lacks a field is completed from the engine's view when there is one; others stay as they are |
| `CleanupPlan.PlansAreSafe` | backend/src/connected-accounts/connected-accounts.service.ts:222-248 | every row of a plan's safe list comes from a fetched message, is unprotected, and is targeted by the query or a category label |
| `CleanupPlan.RequestedIsSelectedAndSafe` | backend/src/connected-accounts/connected-accounts.service.ts:266-273 | the ids a direct execution requests are exactly the planned safe ids the client selected, so an empty selection requests nothing |
| `CleanupPlan.NothingProtectedIsRequested` | backend/src/connected-accounts/connected-accounts.service.ts:222-273 | with distinct ids no protected message is ever requested |
| `CleanupPlan.ListMessages` | backend/src/connected-accounts/connected-accounts.service.ts:1115-1125 | the listing is the first pages one after the other, at most ten, up to where it must stop: the cap is reached, the last page said so, or the next does not answer |
| `CleanupPlan.ListingIsDetermined` | backend/src/connected-accounts/connected-accounts.service.ts:1115-1125 | there is only one such place to stop |
| `CleanupPlan.EnrichInBatches` | backend/src/connected-accounts/connected-accounts.service.ts:1126-1159 | enriching in slices of eight equals enriching each message |
| `CleanupPlan.CapIs` | backend/src/connected-accounts/connected-accounts.service.ts:1098-1114 | the number of messages is capped as asked, between 1 and 500 |
| `CleanupPlan.CollectMessages` | backend/src/connected-accounts/connected-accounts.service.ts:1098-1159 | at most the capped number of messages, each enriched from the engine when it can be |
| `CleanupBatches.EveryDeletionIsBacked` | backend/src/connected-accounts/connected-accounts.service.ts:284-300 | in every run from the start, with every pattern of failed and unanswered calls, each message that disappears had its exact bytes in an archive verified in the same step |
| `CleanupBatches.DeletionsAreBacked` | backend/src/connected-accounts/connected-accounts.service.ts:838-855 | each step that keeps to the invariant deletes only such messages, directly or on approval, and changes nothing else in the mailbox |
| `CleanupBatches.RunKeepsInv` | backend/src/connected-accounts/connected-accounts.service.ts:251-369 | the state invariant holds after every run: rows, archives and deletions stay consistent with one another |
| `CleanupBatches.NextKeepsInv` | backend/src/connected-accounts/connected-accounts.service.ts:665-750 | every single step keeps the invariant |
| `CleanupBatches.ExecuteKeepsInv` | backend/src/connected-accounts/connected-accounts.service.ts:251-369 | direct execution keeps the invariant |
| `CleanupBatches.OrganizeKeepsInv` | backend/src/connected-accounts/connected-accounts.service.ts:371-428 | organizing keeps the invariant |
| `CleanupBatches.StageKeepsInv` | backend/src/connected-accounts/connected-accounts.service.ts:552-663 | staging keeps the invariant |
| `CleanupBatches.ApproveKeepsInv` | backend/src/connected-accounts/connected-accounts.service.ts:665-750 | approval keeps the invariant |
| `CleanupBatches.UndoKeepsInv` | backend/src/connected-accounts/connected-accounts.service.ts:445-550 | undo keeps the invariant |
| `CleanupBatches.SweepKeepsInv` | backend/src/connected-accounts/archive-retention.service.ts:17-56 | the sweep keeps the invariant |
| `CleanupBatches.ApplyEffect` | backend/src/connected-accounts/connected-accounts.service.ts:838-898 | running a batch's verb deletes only after a confirmed archive and only ids it was given |
| `CleanupBatches.LifeCycle` | backend/src/connected-accounts/connected-accounts.service.ts:665-750 | rows are never lost; only PENDING to COMPLETED (with a confirmed count), PENDING to FAILED and COMPLETED to UNDONE (after a live archive was restored with no failure) occur, plan and mode of a row never change, and rows enter as PENDING or confirmed |
| `CleanupBatches.NeverLiveAgain` | backend/src/connected-accounts/connected-accounts.service.ts:1338-1349 | over every run, an archive of a decided batch that is not live never becomes live again |
| `CleanupBatches.NeverLiveAgainStep` | backend/src/connected-accounts/connected-accounts.service.ts:1338-1349 | the same for one step |
| `CleanupBatches.SweepTouches` | backend/src/connected-accounts/archive-retention.service.ts:17-56 | the sweep changes only due rows and removes only their objects |
| `CleanupBatches.SweepRemovesOnlyDeadArchives` | backend/src/connected-accounts/archive-retention.service.ts:17-56 | an object the sweep removes belonged to a row already not live |
| `CleanupBatches.LiveArchiveRestoresAll` | backend/src/connected-accounts/connected-accounts.service.ts:445-550 | in any state that satisfies the invariant, undoing a live batch with an accepting provider succeeds and imports every message the batch deleted |
| `CleanupBatches.UndoneMeansRestored` | backend/src/connected-accounts/connected-accounts.service.ts:470-520 | in every run, whatever an UNDONE batch deleted has been imported again |
| `CleanupBatches.PartialRestoreKeepsArchive` | backend/src/connected-accounts/connected-accounts.service.ts:472-500 | a restore that falls short or is not answered leaves rows and archives as they were |
| `CleanupBatches.RestoreCanBeRetried` | backend/src/connected-accounts/connected-accounts.service.ts:472-500 | after any number of such attempts an undo that the provider takes in full succeeds and has imported every message the batch deleted |
| `CleanupBatches.HandedIdsWerePlannedSafe` | backend/src/connected-accounts/connected-accounts.service.ts:813-817 | in every run, each id handed to the provider was, in its plan, a message that is not starred, whose sender has a readable domain on no list, and that was targeted |
| `CleanupBatches.ExecutionTouchesOnlySelected` | backend/src/connected-accounts/connected-accounts.service.ts:266-273 | a direct execution in any mode hands over at most one list, that of the requested ids of the fresh plan, and deletes only ids in it; each of them was selected by the client and is safe in that plan; an empty selection hands over no id and leaves the mailbox as it is |
| `CleanupBatches.UndoableIffConfirmed` | backend/src/connected-accounts/connected-accounts.service.ts:284-300 | a direct deletion can be undone afterwards exactly when the engine's answer came back |
| `CleanupBatches.ApprovedUndoableIffConfirmed` | backend/src/connected-accounts/connected-accounts.service.ts:703-717 | the same for an approved batch, whose row otherwise ends FAILED |
| `CleanupBatches.ApproveActsOnPendingOnly` | backend/src/connected-accounts/connected-accounts.service.ts:665-678 | approving a batch that is not pending changes nothing |
| `CleanupBatches.FailedStaysFailed` | backend/src/connected-accounts/connected-accounts.service.ts:665-717 | in every run a FAILED batch stays FAILED: it has no retry |
| `CleanupEffects.VerbDoes` | backend/src/connected-accounts/connected-accounts.service.ts:804-898 | running a verb: a count comes back exactly when the provider was asked and answered; then exactly the given ids were handed over once, by the verb's own call, and of the mailbox exactly those are gone that a deletion removed; if it was not asked nothing happened |
| `CleanupEffects.ExecutionDoes` | backend/src/connected-accounts/connected-accounts.service.ts:266-369 | direct execution hands over exactly the requested ids unless the mode is refused or the archive was not confirmed, and writes a COMPLETED row exactly when that was answered |
| `CleanupEffects.OrganizingDoes` | backend/src/connected-accounts/connected-accounts.service.ts:371-428 | organizing hands the whole safe list over to be archived and deletes nothing; a row is written exactly when it was confirmed |
| `CleanupEffects.ApprovalDoes` | backend/src/connected-accounts/connected-accounts.service.ts:665-750 | approval hands over the whole safe list of the staged plan by the staged verb; the row ends COMPLETED exactly when that was confirmed, with its archive if it deleted |
| `CleanupEffects.ApprovedIsWhatWasStaged` | backend/src/connected-accounts/connected-accounts.service.ts:552-750 | whatever happens in between, approving a staged batch carries out the verb and the plan that were staged |
| `CleanupEffects.CompletedWasHandedOver` | backend/src/connected-accounts/connected-accounts.service.ts:804-836 | in every run each batch that is COMPLETED or UNDONE was handed to the provider: ids of its plan, by the call of its verb |
| `CleanupEffects.RefusedChangesNothing` | backend/src/connected-accounts/connected-accounts.service.ts:445-470 | without a linked account, a pending batch or a live archive, approval and undo change nothing |
| `CleanupEffects.UnconfirmedDeletionIsStranded` | backend/src/connected-accounts/connected-accounts.service.ts:791-802 | the failing input, for any plain message that may be cleaned: it is gone, its archive is stored, verified and holds it, and no row leads to it |
| `CleanupEffects.ArchiveLifetime` | backend/src/connected-accounts/connected-accounts.service.ts:1338-1349 | an archive can be undone for seven days, in the vault for good; the sweep finds it after them and in the vault never |
| `CleanupEffects.SweepClears` | backend/src/connected-accounts/archive-retention.service.ts:28-50 | every due row whose deletion was answered is cleared and its archive is gone |
| `CleanupService.Service.CreateVerifiedArchive` | backend/src/connected-accounts/connected-accounts.service.ts:1054-1096 | a reference is returned exactly when upload, answer and verification all succeed; the object store changes only by the upload |
| `CleanupService.Service.RunVerb` | backend/src/connected-accounts/connected-accounts.service.ts:804-898 | the verb runs as the state machine says, deletion only behind a verified archive |
| `CleanupService.Service.RunAndRecord` | backend/src/connected-accounts/connected-accounts.service.ts:276-369 | a batch row appears exactly when the engine confirmed a count |
| `CleanupService.Service.ExecuteCleanup` | backend/src/connected-accounts/connected-accounts.service.ts:251-369 | the handler is the Execute step and keeps the invariant; a failed call leaves all rows unchanged |
| `CleanupService.Service.OrganizeMailbox` | backend/src/connected-accounts/connected-accounts.service.ts:371-428 | the handler is the Organize step and keeps the invariant |
| `CleanupService.Service.StageCleanupRequest` | backend/src/connected-accounts/connected-accounts.service.ts:552-663 | the handler adds one PENDING row under a new id and touches nothing else; a request to unsubscribe stages nothing |
| `CleanupService.Service.ApproveCleanupBatch` | backend/src/connected-accounts/connected-accounts.service.ts:665-750 | the handler is the Approve step and keeps the invariant |
| `CleanupService.Service.UndoBatch` | backend/src/connected-accounts/connected-accounts.service.ts:445-550 | the handler is the Undo step; rows change only when the restore was complete |
| `CleanupService.Service.SweepExpiredArchives` | backend/src/connected-accounts/archive-retention.service.ts:17-56 | the row loop, skipping rows whose deletion failed, is the Sweep step |
| `AgentBindings.ReconcileEstablishes` | backend/src/agents/agents.service.ts:293-327 | from any state: at most one primary, sendable, equal to the cache; no cached mailbox only when nothing is sendable; no membership or access changes |
| `AgentBindings.ReconcileIdempotent` | backend/src/agents/agents.service.ts:293-327 | reconciling twice is reconciling once |
| `AgentBindings.ReconcileKeepsPrimary` | backend/src/agents/agents.service.ts:293-327 | a consistent agent with a primary is left as it is |
| `AgentBindings.CollapseKeepsFirst` | backend/src/agents/agents.service.ts:303-308 | clearing the flags of all primaries but the first leaves exactly that one flagged |
| `AgentBindings.FoundInOrder` | backend/src/agents/agents.service.ts:298-318 | searching the bindings in the order of flag and age stops at the chosen one, and finds none exactly when there is none |
| `AgentBindings.PromotesOldestIff` | backend/src/agents/agents.service.ts:309-321 | a promotion takes the oldest sendable binding if and only if that one is primary or no sendable binding is |
| `AgentBindings.OnePrimaryPromotesOldest` | backend/src/agents/agents.service.ts:309-321 | with at most one primary a promotion takes the oldest sendable binding |
| `AgentBindings.TwoPrimariesPromoteTheYounger` | backend/src/agents/agents.service.ts:298-318 | the failing input: two primaries, the first unable to send |
| `AgentBindings.SetPrimaryConsistent` | backend/src/agents/agents.service.ts:263-284 | setting the primary gives a consistent agent exactly unless the mailbox is the empty string |
| `AgentBindings.BindConsistent` | backend/src/agents/agents.service.ts:167-203 | binding gives a consistent agent from any state of its flags |
| `AgentBindings.BindPrimaryTakesEffect` | backend/src/agents/agents.service.ts:167-203 | binding a mailbox as primary makes it the send identity |
| `AgentBindings.UnbindConsistent` | backend/src/agents/agents.service.ts:206-236 | unbinding keeps a consistent agent consistent |
| `AgentBindings.BindingOthersKeepsIdentity` | backend/src/agents/agents.service.ts:167-203 | granting another mailbox, not as primary, does not move the send identity |
| `AgentBindings.UnbindingOthersKeepsIdentity` | backend/src/agents/agents.service.ts:206-236 | revoking another mailbox does not move it either |
| `AgentBindings.BindGrants` | backend/src/agents/agents.service.ts:167-203 | binding grants exactly the access asked for to exactly this mailbox, both for reading alone as primary, in place or at the end; all other rights stay in order |
| `AgentBindings.UnbindRevokes` | backend/src/agents/agents.service.ts:206-236 | unbinding takes away the right to the mailbox, and the send identity if that was it, and leaves all other rights in order |
| `AgentBindings.SetPrimaryGrants` | backend/src/agents/agents.service.ts:263-284 | setting the primary mailbox caches it and binds it, raising a read-only binding to both and leaving any other access; no other right changes |
| `AgentBindings.RevokedStaysRevoked` | backend/src/agents/agents.service.ts:66-236 | in every run an unbound mailbox stays unbound until a bind or an update names it |
| `AgentBindings.CreateGives` | backend/src/agents/agents.service.ts:66-112 | a new agent can use exactly the mailbox it was created with |
| `AgentBindings.UnknownMailboxIsRefused` | backend/src/agents/agents.service.ts:66-190 | a mailbox that is not of the workspace is given to no agent |
| `AgentBindings.PerformKeepsConsistency` | backend/src/agents/agents.service.ts:66-236 | an operation keeps all agents consistent if and only if it does not patch an existing agent's mailbox to the empty string |
| `AgentBindings.EmptyPatchBreaksTheCache` | backend/src/agents/agents.service.ts:115-162 | the failing input: an empty-string patch caches an empty mailbox |
| `AgentBindings.BindRepairs` | backend/src/agents/agents.service.ts:167-203 | the next bind repairs it |
| `AgentBindings.EverySequenceKeepsConsistency` | backend/src/agents/agents.service.ts:66-236 | every sequence of operations without such a patch keeps all agents consistent |
| `AgentBindings.OthersUntouched` | backend/src/agents/agents.service.ts:115-236 | an operation on one agent leaves the others alone |
| `AgentBindings.AgentsService.UpsertBinding` | backend/src/agents/agents.service.ts:239-257 | the binding of the mailbox is updated, or added at the end |
| `AgentBindings.AgentsService.SetPrimaryMailbox` | backend/src/agents/agents.service.ts:263-284 | clears all flags, then sets the one and the cache |
| `AgentBindings.AgentsService.CollapseExtras` | backend/src/agents/agents.service.ts:305-308 | the loop clears the flags of the given bindings and of no other |
| `AgentBindings.AgentsService.FindSendable` | backend/src/agents/agents.service.ts:315 | the search finds the chosen binding |
| `AgentBindings.AgentsService.CollapseToFirst` | backend/src/agents/agents.service.ts:303-309 | the first primary alone stays flagged, and is the chosen binding if it can send |
| `AgentBindings.AgentsService.ReconcilePrimary` | backend/src/agents/agents.service.ts:293-327 | collapse, demote, promote and cache, step by step, is the reconcile function |
| `AgentBindings.AgentsService.CreateAgent` | backend/src/agents/agents.service.ts:66-112 | the handler is the Create operation and keeps consistency |
| `AgentBindings.AgentsService.UpdateAgent` | backend/src/agents/agents.service.ts:115-162 | the handler is the Update operation; consistency is kept unless the patch is the empty string |
| `AgentBindings.AgentsService.BindMailbox` | backend/src/agents/agents.service.ts:167-203 | the handler is the Bind operation and keeps consistency |
| `AgentBindings.AgentsService.UnbindMailbox` | backend/src/agents/agents.service.ts:206-236 | the handler is the Unbind operation and keeps consistency |
| `ReplyCaps.MailboxCapHolds` | backend/src/agent-reply/agent-reply.service.ts:225-267 | with handlers in sequence no half-open 24-hour window anywhere in the run holds more than the cap of composes for one mailbox |
| `ReplyCaps.ThreadCapHolds` | backend/src/agent-reply/agent-reply.service.ts:417-418 | nor more than five automatic sends in one thread |
| `ReplyCaps.ReplyRuntime.DraftReplyForInbound` | backend/src/agent-reply/agent-reply.service.ts:172-468 | the handler: no model call behind a shut gate or a reached cap, at most two otherwise; rows change as the handling function says |
| `ReplyCaps.RepliesIff` | backend/src/agent-reply/agent-reply.service.ts:172-430 | a row is written if and only if replies are on, neither workspace nor agent is paused, the sender is neither missing, the mailbox itself, a machine nor an agent, the mailbox has room, one of two answers is usable, and the compose records a new reference |
| `ReplyCaps.SendsIff` | backend/src/agent-reply/agent-reply.service.ts:417-418 | a row is sent without approval if and only if the agent is registered, the thread is below its cap and the compose let it go |
| `ReplyCaps.ReferencesAreUnique` | backend/src/agent-reply/agent-reply.service.ts:419-430 | a message is composed at most once however often it is handled |
| `ReplyWindows.ClosedIsHalfOpenAndAnEnd` | backend/src/agent-reply/agent-reply.service.ts:225-226 | a window counting both ends holds what the half-open one does and the rows of its first moment |
| `ReplyWindows.ClosedWindowsOfARun` | backend/src/agent-reply/agent-reply.service.ts:225-267 | in every run a closed window keeps the mailbox cap and the thread cap when one of its two end moments has no row, and always twice the cap |
| `ReplyWindows.MailboxClosedWindowsIff` | backend/src/agent-reply/agent-reply.service.ts:244-267 | in every run all closed windows keep the mailbox cap if and only if each handler that composed for the mailbox found fewer than the cap when also counting the row written exactly 24 hours before its own |
| `ReplyWindows.ThreadClosedWindowsIff` | backend/src/agent-reply/agent-reply.service.ts:244-258 | the same for the thread cap and automatic sends |
| `ReplyWindows.MailboxClosedWindowMayHoldTwice` | backend/src/agent-reply/agent-reply.service.ts:225-226 | the failing inputs: for every cap a run of twice as many messages, half of them exactly 24 hours after the others, whose closed window holds twice the cap |
| `ReplyWindows.ThreadClosedWindowMayHoldTwice` | backend/src/agent-reply/agent-reply.service.ts:225 | the same with ten automatic sends in one thread |
| `ReplyReferences.SameReferenceIff` | backend/src/agent-reply/agent-reply.service.ts:419 | for the stamps the mail server gives, references are equal exactly when mailbox, thread and stamp are, whatever colons thread ids hold |
| `ReplyReferences.RowsComeFrom` | backend/src/agent-reply/agent-reply.service.ts:419-430 | every row of a run was written by the handler of an earlier message and has its reference |
| `ReplyReferences.WrittenStays` | backend/src/agent-reply/agent-reply.service.ts:419-430 | a message composed once has its row in every later state of the run |
| `ReplyReferences.SendsAreRegistered` | backend/src/agent-reply/agent-reply.service.ts:417-430 | in every run each row sent without approval comes from a registered agent's message in a thread below its cap |
| `ReplyReferences.ComposedIffNoneBefore` | backend/src/agent-reply/agent-reply.service.ts:419-430 | after any run, a message that passes the gates, the mailbox cap and the model is composed if and only if no composed message before it agrees with it in mailbox, thread and stamp |
| `ReplyReferences.NewMessagesAreComposed` | backend/src/agent-reply/agent-reply.service.ts:419-430 | after any run, such a message is composed if no earlier message agrees with it in these three |
| `ReplyReferences.SecondIsComposedIff` | backend/src/agent-reply/agent-reply.service.ts:419-430 | in particular, of two messages that would each be answered, the second is answered after the first exactly unless these three are the same |
| `ReplyReferences.SameSecondSharesOneReply` | backend/src/agent-reply/agent-reply.service.ts:419-430 | the failing input: two senders, one thread, one stamp, one reply |
| `ThreadDigest.BuildThreadDigest` | backend/src/agent-reply/agent-reply.service.ts:623-656 | the digest is the longest run of most recent messages, of the last five, whose sizes fit 6000 characters, at least one; in time order; bodies cut at 1500; a single substitute entry for an empty thread |
| `ThreadDigest.RecentAreNewest` | backend/src/agent-reply/agent-reply.service.ts:623-633 | the messages considered are the newest five, or all |
| `ThreadDigest.EntryShows` | backend/src/agent-reply/agent-reply.service.ts:633-641 | an entry shows sender, subject and the first 1500 characters of a message |
| `ThreadDigest.DigestIsDetermined` | backend/src/agent-reply/agent-reply.service.ts:633-647 | only one digest meets that description |
| `ThreadDigest.LongerSuffixCostsMore` | backend/src/agent-reply/agent-reply.service.ts:642-643 | adding older messages never makes the digest cheaper, so stopping at the first overflow is maximal |
| `ThreadDigest.DigestEndsWithNewest` | backend/src/agent-reply/agent-reply.service.ts:627-647 | the digest is chronological, of at most five entries, and ends with the newest message of the thread |
| `ReplyHtml.EscapeIsOnePass` | backend/src/agent-reply/agent-reply.service.ts:593-600 | the five sequential replacements equal one per-character pass |
| `ReplyHtml.EscapedHasNoMarkup` | backend/src/agent-reply/agent-reply.service.ts:593-600 | escaped text contains no angle bracket and no quote |
| `ReplyHtml.EscapeIsInjective` | backend/src/agent-reply/agent-reply.service.ts:593-600 | a reader of the entities recovers the text; different texts escape differently |
| `ReplyHtml.ReadBack` | backend/src/agent-reply/agent-reply.service.ts:593-600 | any list of tags and characters is read back from its HTML |
| `ReplyHtml.HtmlHasOnlyOwnTags` | backend/src/agent-reply/agent-reply.service.ts:550-557 | every opening angle bracket begins a p or br tag |
| `ReplyHtml.ReplyShowsTheParagraphs` | backend/src/agent-reply/agent-reply.service.ts:550-557 | for every model text the only tags are the reply's own, and a reader sees exactly its trimmed non-empty paragraphs, line breaks as br |
| `ReplyHtml.ParagraphsOfJoined` | backend/src/agent-reply/agent-reply.service.ts:550-555 | paragraphs written a blank line apart come back as they were |
| `ConversationGrouping.ListThreads` | cleaner-engine/providers/microsoft_provider.py:315-348 | the result is the first limit conversations by first appearance, each with its count over the whole page, unread if some message is, participants de-duplicated in first-seen order, subject, time and snippet of its first message |
| `ConversationGrouping.AddParticipants` | cleaner-engine/providers/microsoft_provider.py:339-346 | the candidate loop appends addresses not yet seen in lower case |
| `ConversationGrouping.Absorb` | cleaner-engine/providers/microsoft_provider.py:334-346 | one more message updates count, unread flag and participants |
| `ConversationGrouping.OrderIsFirstAppearance` | cleaner-engine/providers/microsoft_provider.py:319-333 | the order lists every conversation once, at the position of its first message |
| `ConversationGrouping.OfMeans` | cleaner-engine/providers/microsoft_provider.py:319-333 | a message belongs to the conversation it names, or stands alone |
| `ConversationGrouping.SummaryMeans` | cleaner-engine/providers/microsoft_provider.py:319-336 | a conversation shows subject, time and snippet of its newest message, and is unread exactly if one of its messages is |
| `ConversationGrouping.EveryMessageIsCountedOnce` | cleaner-engine/providers/microsoft_provider.py:334-335 | the counts of all conversations add up to the page |
| `ConversationGrouping.ParticipantsAreEveryoneOnce` | cleaner-engine/providers/microsoft_provider.py:339-346 | participants differ in lower case, each stands on a message with an address, and no one is left out |
| `CleanupPreview.GroupBySender` | backend/src/connected-accounts/cleanup-targets.ts:86-90 | the table maps each display sender, in order of first appearance, to its number of safe messages |
| `CleanupPreview.TopRows` | backend/src/connected-accounts/cleanup-targets.ts:86-94 | the rows are the first eight under count then collation; truncated exactly when there are more senders |
| `CleanupPreview.CleanupTargetsFromPlan` | backend/src/connected-accounts/cleanup-targets.ts:79-105 | the backend preview, missing plan and missing counts included |
| `CleanupPreview.DeriveCleanupTargets` | frontend/lib/cleanupTargets.ts:101-160 | the browser's preview: stored, else from the plan, else a thread count, else none |
| `CleanupPreview.VerbIff` | backend/src/connected-accounts/cleanup-targets.ts:54-59 | exactly DELETE and ARCHIVE_PURGE read "Permanently delete", and exactly ARCHIVE, ORGANIZE and LABEL read "Archive" |
| `CleanupPreview.DisplayIs` | backend/src/connected-accounts/cleanup-targets.ts:62-68 | a sender is shown by its name, else by the whole text, else by a placeholder |
| `CleanupPreview.CountsAgreeIff` | frontend/lib/cleanupTargets.ts:101-133 | stored and derived preview agree on the protected and freed counts if and only if the plan has both |
| `CleanupPreview.StoredIsBounded` | frontend/lib/cleanupTargets.ts:70-99 | of a stored preview at most eight rows are shown, and no negative total |
| `CleanupPreview.DisplayIsClean` | frontend/lib/cleanupTargets.ts:40-45 | a display sender survives the browser's string cleaning |
| `CleanupPreview.StoredAndDerivedAgree` | frontend/lib/cleanupTargets.ts:70-160 | for every plan and any two locales the stored preview and the one derived from the raw plan agree on verb, scope, provider, total and truncation, and each shows the rows of its own host |
| `CleanupPreviewOrder.PreviewAddsUp` | frontend/lib/cleanupTargets.ts:177-183 | shown plus remaining is the total, and truncated holds exactly when something remains, for every plan whose count is its list's length |
| `CleanupPreviewOrder.AnyCountAddsUpIff` | frontend/lib/cleanupTargets.ts:177-183 | for any stored count: shown plus remaining is the total if and only if the count covers what is shown, with the matching condition for truncated |
| `CleanupPreviewOrder.StaleCountBreaksTheSum` | frontend/lib/cleanupTargets.ts:177-183 | the failing input: a stored count of zero and many senders |
| `CleanupPreviewOrder.RowsAgreeIff` | backend/src/connected-accounts/cleanup-targets.ts:91-94 | the same names show the same rows under two collations if and only if both put every shown sender before the same others with as many messages |
| `CleanupPreviewOrder.StoredAndDerivedRowsAgreeIff` | frontend/lib/cleanupTargets.ts:101-133 | the stored rows and the derived ones are equal if and only if the two locales agree on those ties; with one locale always |
| `CleanupPreviewOrder.GroupsHoldEverything` | backend/src/connected-accounts/cleanup-targets.ts:86-90 | the group counts add up to the safe list |
| `CleanupPreviewOrder.TopIsLargest` | backend/src/connected-accounts/cleanup-targets.ts:91-94 | every sender left out ranks behind every sender shown and has no more messages |
| `CleanupPreviewOrder.RowsIgnoreOrder` | backend/src/connected-accounts/cleanup-targets.ts:91-94 | without a visible tie the rows are the same for every order of the safe list |
| `CleanupPreviewOrder.SpellingsDependOnOrder` | backend/src/connected-accounts/cleanup-targets.ts:86-94 | the failing input: two senders that are two spellings of one letter, under an order that cannot tell them apart |
| `CleanupPreviewOrder.LocalesShowDifferentRows` | frontend/lib/cleanupTargets.ts:101-133 | the failing input: two senders that two locales order differently |
| `CleanupPreviewOrder.PreviewIgnoresOrderIff` | backend/src/connected-accounts/cleanup-targets.ts:86-94 | the rows are independent of the order of the safe list if and only if no shown sender ties, in count and collation, with a different sender |
| `AccessList.ParseAccessList` | backend/src/auth/access-list.ts:55-74 | the parsing loop keeps exactly the well-formed tokens, in order |
| `AccessList.AllowedIffListed` | backend/src/auth/access-list.ts:113-149 | an address is let in exactly when it is listed or its domain (after the first @) has a wildcard |
| `AccessList.ExactWins` | backend/src/auth/access-list.ts:120-128 | an exact entry decides wherever the wildcards stand |
| `AccessList.UnsetListLetsOwnersIn` | backend/src/auth/access-list.ts:76-97 | without a setting exactly the two built-in owners are let in |
| `AccessList.WildcardIff` | backend/src/auth/access-list.ts:129-149 | a wildcard lets in exactly the addresses of its domain |
| `AccessList.EveryRuleIsValid` | backend/src/auth/access-list.ts:55-74 | every rule read has one of the five roles and a non-empty pattern |
| `AccessList.BlankListLetsNobodyIn` | backend/src/auth/access-list.ts:76-97 | a list that is set but blank lets nobody in |
| `AccessList.RulesRoundTrip` | backend/src/auth/access-list.ts:55-74 | clean rules written down are parsed back |
| `IdentityLinking.UserTable.ValidateKeycloakUser` | backend/src/auth/auth.service.ts:49-139 | the handler is one step of the table: by subject, else link by email, else refuse, else create behind the access list |
| `IdentityLinking.LoginKeepsUnique` | backend/src/auth/auth.service.ts:49-139 | no two rows ever share an email, a username or a Keycloak id |
| `IdentityLinking.LoginChangesSetIdIff` | backend/src/auth/auth.service.ts:74-104 | with rebinding off a login changes a set Keycloak id if and only if that id is the empty string and the token reaches the row by email |
| `IdentityLinking.EmptySubjectIsReplaced` | backend/src/auth/auth.service.ts:74-82 | the failing input, for every admitted email: a row created for an empty subject is taken over |
| `IdentityLinking.SignedInMeans` | backend/src/auth/auth.service.ts:108-139 | only an active row is signed in to; its login is noted, a new row carries the token's claims, and all other rows stay |
| `IdentityLinking.InactiveIsRefused` | backend/src/auth/auth.service.ts:74-132 | an inactive row reached by subject is refused without change; reached by email it is linked and then refused |
| `IdentityLinking.NewUserIff` | backend/src/auth/auth.service.ts:100-128 | a row is created, or refused by the access list or for its user name, exactly when neither subject nor email is known |
| `IdentityLinking.RunIsStable` | backend/src/auth/auth.service.ts:49-139 | over every sequence of logins: rows and emails stay, a non-empty Keycloak id never changes, every row created was allowed by the access list |
| `IdentityLinking.SameSubjectSameRow` | backend/src/auth/auth.service.ts:58-61 | a subject that signed in to a row signs in to no other, whatever email later tokens carry |
| `IdentityLinking.OtherSubjectIsRefused` | backend/src/auth/auth.service.ts:92-102 | another subject with a linked row's email is refused and changes nothing |
| `GmailTriage.ThreadTriageIds` | cleaner-engine/app.py:247-265 | exactly the non-draft messages, in order; for Microsoft moves only received ones |
| `GmailTriage.TouchesIff` | cleaner-engine/app.py:247-265 | received messages are touched by every verb, sent ones unless Microsoft would move them, drafts by none |
| `GmailTriage.ModifyTwice` | cleaner-engine/providers/gmail_provider.py:446-538 | one call after another relabels the messages of both lists and no other |
| `GmailTriage.Gmail.Batch` | cleaner-engine/providers/gmail_provider.py:446-538 | the chunk loop applies a prefix of the request; it succeeds exactly when every call works, and then the count is the request |
| `GmailTriage.Gmail.TriageThread` | cleaner-engine/app.py:536-604 | a request relabels the thread's non-drafts; cut short, every message is either as before or as requested |
| `GmailTriage.RetryCompletes` | cleaner-engine/providers/gmail_provider.py:446-538 | repeating a request that was cut short has the effect of the whole request |
| `GmailTriage.VerbLeaves` | cleaner-engine/providers/gmail_provider.py:446-538 | which labels each of the six verbs adds and takes away on the non-drafts of a thread, and none on any other message |
| `GmailTriage.RestoreAfter` | cleaner-engine/providers/gmail_provider.py:519-538 | archive, trash or spam followed by restore gives every non-draft its labels plus INBOX minus SPAM and TRASH, and leaves all else unchanged |
| `GmailTriage.RoundTripIsIdentityIff` | cleaner-engine/providers/gmail_provider.py:446-538 | the round trip is the identity if and only if the thread's non-drafts were wholly in the inbox |
| `GmailTriage.VerbsKeepDirection` | cleaner-engine/providers/gmail_provider.py:366-373 | triage never changes whether a message is a draft, sent or received |
| `GraphBatches.Graph.BatchMoveToFolder` | cleaner-engine/providers/microsoft_provider.py:516-537 | no count if the folder lookup or any batch call raises; otherwise every message is requested once, in order, and the count is the tally of the answered batches |
| `GraphBatches.Graph.MoveBatches` | cleaner-engine/providers/microsoft_provider.py:91-109 | the requests are a prefix of the ids in batches of 20, ending with the first call that raises: no response, throttling, or an unreadable answer |
| `GraphBatches.OnlyRequestedMove` | cleaner-engine/providers/microsoft_provider.py:516-537 | only requested messages move, and only to the folder |
| `GraphBatches.ReportsIff` | cleaner-engine/providers/microsoft_provider.py:533-537 | a request counts as moved exactly when its batch was answered with 200 and it with 200 or 201 |
| `GraphBatches.CountIsALowerBound` | cleaner-engine/providers/microsoft_provider.py:533-537 | the count is at most the number of requested messages now in the folder, and equals it exactly when each of them was reported by its call |
| `GraphBatches.CountIsExactIff` | cleaner-engine/providers/microsoft_provider.py:533-537 | for distinct messages from other folders the count is exact if and only if every call moved exactly what it reported |
| `GraphBatches.FullTallyMeansAllMoved` | cleaner-engine/providers/microsoft_provider.py:533-537 | the count never exceeds the requests made, and if it reaches them every one of those messages is in the folder |
| `GraphBatches.UnansweredMovesAreNotCounted` | cleaner-engine/providers/microsoft_provider.py:533-537 | the bound can be strict: a batch carried out and then answered with a gateway error is not counted, and nothing raises |
| `PlanExecution.CheckProtected` | cleaner-engine/cleanup/planner.py:24-49 | protected exactly when the domain is unknown, listed, or ends in a listed suffix |
| `PlanExecution.ProtectedByAddressIff` | cleaner-engine/cleanup/planner.py:24-49 | however the sender is written, it is protected exactly when the domain of the address is unreadable, listed or has a listed ending |
| `PlanExecution.KeptAddressesAreSetApart` | cleaner-engine/cleanup/planner.py:76-95 | a starred message or one from such a domain is set apart, and not planned when ids are distinct |
| `PlanExecution.TargetedIff` | cleaner-engine/cleanup/planner.py:97-106 | a message without a category is targeted, any other exactly if its category or one of its labels, less `category_`, is chosen |
| `PlanExecution.PlanAddsUp` | cleaner-engine/cleanup/planner.py:76-111 | planned ids and bytes are those of the safe messages, in order |
| `PlanExecution.CreatePlan` | cleaner-engine/cleanup/planner.py:76-111 | the planning loop: ids skipped, protected, safe and bytes, in order |
| `PlanExecution.PlannedIffSafe` | cleaner-engine/cleanup/planner.py:76-111 | an id is planned exactly when some message with it is neither starred nor protected and is targeted; a message without a category counts as targeted |
| `PlanExecution.ProtectedIsNotPlanned` | cleaner-engine/cleanup/planner.py:90-98 | with distinct ids nothing starred or protected is planned |
| `PlanExecution.RunBatches` | cleaner-engine/cleanup/executor.py:56-83 | the batch loop submits consecutive batches until the list is used up and credits what is reported |
| `PlanExecution.ShareIs` | cleaner-engine/cleanup/executor.py:76-81 | the freed bytes are the proportion of the estimate, rounded toward zero, and all of it for a full count |
| `PlanExecution.ExecutePlan` | cleaner-engine/cleanup/executor.py:18-103 | every id is submitted once, in order, in batches of at most 50; completed plus failed is the total whatever is reported or raised; bytes freed lie between 0 and the estimate when counts are within the batches |
| `PlanExecution.CleanUp` | cleaner-engine/cleanup/executor.py:26-36 | planning and executing together never submit a protected message when ids are distinct |
| `AccessTokens.ScopeSatisfies` | backend/src/auth/pat-scope.ts:45-64 | the loop grants exactly when some entry is the full wildcard, the scope, or a prefix wildcard on the segment boundary |
| `AccessTokens.WildcardGrantsItsSegment` | backend/src/auth/pat-scope.ts:56-61 | a prefix wildcard grants a scope exactly when the segments are equal |
| `AccessTokens.GrantedExactly` | backend/src/auth/pat-scope.ts:12-20 | an accepted token grants a known scope exactly by `*`, by name, or by its segment's wildcard |
| `AccessTokens.NormalizeScopes` | backend/src/auth/pat.service.ts:102-126 | accepted exactly when every trimmed scope is known; the result is the trimmed scopes without repetitions |
| `AccessTokens.NormalizingPreservesGrants` | backend/src/auth/pat.service.ts:109-123 | dropping repetitions changes no decision |
| `AccessTokens.NormalizingGrantsIff` | backend/src/auth/pat.service.ts:109-123 | a scope is granted by the normalized list if and only if it was by the given one, or an entry with outer blanks grants it without them |
| `AccessTokens.BlanksHideAGrant` | backend/src/auth/pat.service.ts:109-123 | such an entry: a scope written between blanks is refused as given and granted once normalized |
| `AccessTokens.NormalizingTakesNothingAway` | backend/src/auth/pat.service.ts:109-123 | trimming and dropping repetitions never withdraws a scope |
| `AccessTokens.GateDecides` | backend/src/auth/pat-scope.ts:72-84 | for every token, known scope and present moment: granted if and only if it is not revoked, has not expired and lists everything, the scope or its segment; revoked if and only if it has a revocation; otherwise expired, otherwise the scope is missing |
| `AccessTokens.AcceptableIff` | backend/src/auth/pat.service.ts:109-123 | a new token may carry exactly the full wildcard, known scopes and wildcards of known segments |
| `AccessTokens.DigitsOrder` | backend/src/auth/pat-scope.ts:76-77 | fixed-width numbers compare as strings as they do as numbers |
| `AccessTokens.StringOrderIsTimeOrderIff` | backend/src/auth/pat-scope.ts:76-77 | comparing time stamps as strings is comparing times if and only if both years or neither exceed 9999 and two negative years are one year |
| `AccessTokens.ExpiryIsJudgedByTimeIff` | backend/src/auth/pat-scope.ts:72-83 | expiry is judged by time exactly for tokens expiring by the year 9999 |
| `AccessTokens.FarExpiryIsRefusedAtOnce` | backend/src/auth/pat-scope.ts:76-77 | a token expiring later than that is refused from the start |
| `AccessTokens.DenialIsPermanent` | backend/src/auth/pat.service.ts:145-197 | a token refused as revoked or expired is refused so at every later moment, for every scope, whatever revocations follow |

## Left out

- HTTP, OAuth, Keycloak, S3, Prisma, Gmail and Graph transport: only the outcome of each call is modelled.
- Concurrent handlers: reads and writes in one handler are in separate transactions, so the properties hold for handlers in sequence.
- Database failures in the middle of a handler, and the audit events, notifications and listing views it also writes.
- Real JSON syntax, UTF-8 decoding of the streams, and regular expression engines.
- The inside of the action parser (`_parse_actions`): it is a function parameter, so an exception it might raise after a completed stream is not modelled.
- The offline and empty-message branches of the assistant stream, which answer with fixed frames.
- The archive's manifest is a field of the archive instead of a JSON member of the zip.
- Unsubscribing, scheduling, statistics, prompts, query translation and user interface components.
- The automated-sender test and address normalization of the reply runtime: their results are inputs of the handler.
- `stripHtml`: it is not an inverse of the escaping and nothing is claimed about it.
- The generated signature and the quoted original of a reply.
- Labels on Microsoft restore: the provider does not re-apply any.
- The sweep's row order and its limit of 100 rows: any list of rows is allowed.
- Microsoft's new message id after a move: a message keeps its name in the model.
- The `label` argument of batch archiving and Microsoft's folder lookups.
- Floating-point rounding of the freed-bytes estimate: it is computed on integers, truncated toward zero.
- The progress callback, the warnings and the log lines of the engine's cleanup.
- The first and last name of a user row, and stored refresh tokens.
- Minting, hashing and listing of tokens; only their scopes and life cycle are modelled.
- GmailTriage.Gmail.Batch: takes each remote call as atomic; a call that changes only some of its 100 messages is not modelled.
