# Codex app-server adapter: a verified model

The adapter in `packages/adapters-codex-app-server/src` mirrors a remote agent runtime in memory.
Events, replies and releases interleave, and most of its code keeps several indexes or views of the
same thing in agreement. This project models its state machines and text transformations in Dafny
and proves what they keep. `dafny verify dfyconfig.toml` checks everything.

How the parts fit together:

- **Subagent links** (`SubagentLinks`, `SubagentLinksProofs`, `SubagentLinkState`, `StatusMerge`,
  `BufferedTurns`): the four indexes of the subagent routing forest, the status and time merge of an
  update, and the buffering of turns until the route of their child is known.
- **Live sessions** (`RouteForest`, `LiveSessions`): the walk down from retained sessions, the climb
  from a changed thread, and the release of a session tree, over that forest.
- **Message admission** (`MessageEchoes`, `EchoBook`, `MessageAdmission`, `MessageAdmissionProofs`,
  `TurnLifecycle`): sends, steers and continuations as a state machine whose steps are the code
  between two awaits.
- **Pending input** (`RequestKeys`, `PendingInput`, `PendingInputProofs`, `PendingTable`,
  `PendingRoutes`, `ServerRequests`, `ServerRequestsProofs`, `RequestHandler`): pending approvals and
  questions, their routes, and the transaction that marks, registers, announces and rolls back.
- **Text** (`Utf16`, `DisplayParts`, `DisplayPartsProofs`, `DisplayPartsLoops`, `WorkflowContext`,
  `JsonScan`): byte ranges in UTF-16 strings, display parts, prompt chunks and a JSON scanner.
- **Paging, caching, resources** (`SessionPaging`, `AsyncQuestions`, `BackgroundQuestions`,
  `ThreadInventory`, `InventoryReader`, `ImageBatches`, `ImageRuntime`).

Code that changes an object in place is a class here. Each such class has a `Value()`, the pure value
that it holds; its methods are proved to change that value as a function of the same name says, and
the lemmas are about those functions. Code that only computes is functions and lemmas.

## Where the code does less than it seems to promise

Each of these is proved from the code as it is. For each, one lemma gives inputs or a run on which the
property fails, and another says exactly when it holds.

- A route is announced again by an update of the spawn item that names no child
  (`AnnouncedExactlyOnceIff`, `RouteCanBeAnnouncedTwice`). Listeners must expect repeats.
- A spawn item that names two children shares one correlation key between them, and the indexes stop
  agreeing (`UpdateKeepsAgreementExactly`, `TwoChildrenOfOneSpawnBreakAgreement`).
- An update that names only the spawn item merges into the copy kept for that item, which can be older
  than the link of the child, so a completed child can show as running
  (`ChildlessUpdateLowersStatusIff`, `ChildlessUpdateCanUndoCompletion`).
- A completed tool call gives the running child that it names the end of the call. While the child is
  open an end replaces the one before, so the latest end can be lost, and the order of delivery matters
  (`LatestEndIff`, `LatestEndInAnyOrderIff`, `EndIgnoresOrderIff`, `LaterEndCanBeLost`).
- A terminal update of an earlier run erases the end that a running link carries
  (`EarlierTerminalsChangeNothingIff`, `EarlierTerminalCanEraseEnd`).
- Buffering only the newest lifecycle update until the route is known is lossless for all in-order turns
  exactly when the child has not ended and its link carries no end after the start of its run
  (`NewestSufficesIff`, `EndedLinkCanNeedMore`, `SpawnedLinkCanNeedMore`); for the other links,
  `EndedLinkMayMissTurnsIff` and `OpenLinkMayMissTurnsIff` say which turns may be missed.
- The delta and the full list differ for a routed child that another runtime retains
  (`DeltaEqualsFullIff`, `DeltaEqualsFullAtIff`, `DeltaCanMissChild`).
- A delivered reply forgets its native key without looking whether the key is in use again. When the
  runtime resolved the request itself and reused the native id, the later request stays pending without
  its mark, and the native lookup can become ambiguous (`RunIsCoveredIff`, `RunIsUnambiguousIff`,
  `LateReplyLeavesRequestUnmarked`).
- A request with the empty string as its id is never marked as handled (`EmptyKeyIff`,
  `EmptyIdIsAskedTwice`).
- The keys of a negative number and of the string that spells it are equal (`KeysCollideIff`,
  `MinusFiveCollides`).
- Cancelling an echo after its thread was cleared can drop the new queue of the thread
  (`CancelForgetsOthersIff`, `RefusalForgetsLaterEcho`).
- A turn whose client is missing, or whose caller is no longer current, stays registered and unsettled
  although its request is never sent, and no further turn starts in its thread (`StepStrandsIff`,
  `MissingClientStrandsTurn`); only a native end in the thread or its release removes the turn
  (`StrandedUntilEndOrRelease`).

## Modelling choices

- Session, thread, item, turn and runtime ids are numbers that are only compared. Random occurrence and
  batch ids count up, so the order of the ids is the order of registration.
- Joined string keys are tuples. Nested maps that drop an empty inner map are one map over pairs.
- The identity of a mutable object that several places hold is explicit: a link has a stamp, and echo
  queues and sets of handled keys are numbered.
- Links are scoped to a runtime. Request ids are integers or strings, and every request has one.
- The collation of the locale is any ranking of the ids. A page cursor is never the empty string.
- Approvals and questions share the code of `PendingTable`; the source writes it out twice.
- The events of a runtime are taken one after the other, so a request that arrives while an automatic
  answer of its runtime is in flight waits. Releasing a runtime releases its sessions and their turns,
  whose sets of handled keys no later event uses.

## Model

| member | source | states |
|---|---|---|
| SubagentLinkStates.SubagentLinkState.UpsertLink | packages/adapters-codex-app-server/src/codex-subagent-link-state.ts:304-421 | an update is refused before any change when its child has another parent, and otherwise leaves exactly the merged link in every index; the outcome names the route to announce; indexes that agree still do, unless the update names a second child for its correlation key |
| SubagentLinkStates.SubagentLinkState.StoreLink | packages/adapters-codex-app-server/src/codex-subagent-link-state.ts:583-610 | a stored link replaces the provisional link of its item and drops the correlation entry that link held |
| SubagentLinkStates.SubagentLinkState.FailUnlinkedSpawns | packages/adapters-codex-app-server/src/codex-subagent-link-state.ts:435-469 | exactly the unlinked, unfinished spawns of the parent fail, in both indexes that hold them |
| SubagentLinkStates.SubagentLinkState.ClearSessionLinks | packages/adapters-codex-app-server/src/codex-subagent-link-state.ts:531-563 | every link that has the session as parent or child is gone from all four indexes, and no other link is |
| SubagentLinkStates.SubagentLinkState.ClearRuntimeLinks | packages/adapters-codex-app-server/src/codex-subagent-link-state.ts:565-575 | every link of the runtime is gone from all four indexes, and no other link is |
| SubagentLinkStates.SubagentLinkState.DeleteLink | packages/adapters-codex-app-server/src/codex-subagent-link-state.ts:612-635 | of a link that the state holds, or an older copy of it, exactly the entries under its correlation key are gone from each of the four indexes, the others are unchanged, and the indexes still agree |
| SubagentLinksProofs.UpdateKeepsAgreementExactly | packages/adapters-codex-app-server/src/codex-subagent-link-state.ts:304-421 | an update keeps the four indexes in agreement if and only if the correlation key it uses is free, held by the same child, or held by the unlinked spawn of its own item |
| SubagentLinksProofs.FailingSpawnsKeepsAgreement | packages/adapters-codex-app-server/src/codex-subagent-link-state.ts:435-469 | failing the unlinked spawns of a parent keeps the indexes in agreement |
| SubagentLinksProofs.RemovingKeysKeepsAgreement | packages/adapters-codex-app-server/src/codex-subagent-link-state.ts:531-635 | removing any set of links by correlation key keeps the indexes in agreement |
| SubagentLinksProofs.RunKeepsAgreement | packages/adapters-codex-app-server/src/codex-subagent-link-state.ts:243-303 | over every run of updates, recorded threads, failures and clears in which each spawn item of a parent names one child, all four indexes agree |
| SubagentLinksProofs.ClearedSessionIsGone | packages/adapters-codex-app-server/src/codex-subagent-link-state.ts:531-563 | after a session clear no index names the session, and what does not name it is unchanged |
| SubagentLinksProofs.ClearedRuntimeIsGone | packages/adapters-codex-app-server/src/codex-subagent-link-state.ts:565-575 | a runtime clear erases the runtime from all four indexes and touches no other runtime |
| SubagentLinksProofs.RouteOfLinkedChildIsStable | packages/adapters-codex-app-server/src/codex-subagent-link-state.ts:376-421 | between clears nothing moves a linked child to another parent or correlation key |
| SubagentLinksProofs.SecondParentIsRefused | packages/adapters-codex-app-server/src/codex-subagent-link-state.ts:313-325 | once a child is linked, and through any run without clears, an update of it is refused if and only if it names another parent; the refusal names the first parent and changes nothing |
| SubagentLinksProofs.AnnouncementsAreCounted | packages/adapters-codex-app-server/src/codex-subagent-link-state.ts:396-421 | in a run without clears a child is announced once for becoming linked and once more for each later update of its spawn item that names no child, always with the one route it keeps |
| SubagentLinksProofs.AnnouncedExactlyOnceIff | packages/adapters-codex-app-server/src/codex-subagent-link-state.ts:396-421 | a linked child is announced exactly once if and only if no such update follows |
| SubagentLinksProofs.RouteCanBeAnnouncedTwice | packages/adapters-codex-app-server/src/codex-subagent-link-state.ts:384-421 | a concrete run in which one route is announced twice |
| SubagentLinksProofs.TwoChildrenOfOneSpawnBreakAgreement | packages/adapters-codex-app-server/src/codex-subagent-items.ts:193-218 | a concrete run in which a spawn item names two children and the indexes stop agreeing |
| StatusMerge.UpdatesFoldIntoTheLink | packages/adapters-codex-app-server/src/codex-subagent-link-state.ts:334-374 | updates that name a linked child reach its stored link, and nothing else decides its status and times |
| StatusMerge.HighestStatus | packages/adapters-codex-app-server/src/codex-subagent-link-state.ts:120-177 | within one run of the child the final status is the highest-ranked one seen. The updates tell of one run when no start lies after the end of a terminal update, and no start that may be a restart lies after the end of the ended link, nor, where a terminal status comes without an end, after any other end; updates of any status may carry an end |
| StatusMerge.StatusIgnoresOrder | packages/adapters-codex-app-server/src/codex-subagent-link-state.ts:120-177 | within one run any delivery order gives the same status, also when the start of a turn arrives after its completion |
| StatusMerge.LatestEndIff | packages/adapters-codex-app-server/src/codex-subagent-link-state.ts:161-177 | within one run the end that is left is the latest one if and only if no end arrives after a latest one while the child is still open |
| StatusMerge.LatestEndInAnyOrderIff | packages/adapters-codex-app-server/src/codex-subagent-link-state.ts:161-177 | within one run every delivery order leaves the latest end if and only if the link has ended, or a terminal update brings the latest end, or every other update that brings an end brings the latest |
| StatusMerge.EndIgnoresOrderIff | packages/adapters-codex-app-server/src/codex-subagent-link-state.ts:161-177 | within one run all delivery orders leave the same end if and only if all leave the latest, or no update is terminal and those with an end bring the same one |
| StatusMerge.LaterEndCanBeLost | packages/adapters-codex-app-server/src/codex-subagent-items.ts:193-218 | two completed tool calls of a running child, whose ends 10 and 5 leave the end that came last |
| StatusMerge.ChildlessUpdateCanUndoCompletion | packages/adapters-codex-app-server/src/codex-subagent-link-state.ts:326-333 | a concrete run in which an update of the spawn item alone shows a completed child as running |
| StatusMerge.ChildlessUpdateLowersStatusIff | packages/adapters-codex-app-server/src/codex-subagent-link-state.ts:326-374 | an update that names only the spawn item lowers the status of the linked child if and only if the update and the copy kept for the item both rank below it, or the update restarts that copy, or ended before it, while the child has ended |
| StatusMerge.RestartReopensIffLater | packages/adapters-codex-app-server/src/codex-subagent-link-state.ts:131-177 | an ended child that restarts is running, whatever terminal updates of earlier runs still follow, if and only if the restart starts strictly after the end of the last run; then it has the start and the error of the restart and no end |
| StatusMerge.EarlierTerminalsChangeNothingIff | packages/adapters-codex-app-server/src/codex-subagent-link-state.ts:131-139 | terminal updates that ended before the current run started change no field of the running link if and only if there are none, or the link carries no end and no empty message |
| StatusMerge.EarlierTerminalsEraseTheEnd | packages/adapters-codex-app-server/src/codex-subagent-link-state.ts:131-177 | such updates erase the end of the link and change nothing else |
| StatusMerge.EarlierTerminalCanEraseEnd | packages/adapters-codex-app-server/src/codex-subagent-link-state.ts:131-177 | a run in which such an update erases the end that a running child has from its tool call |
| BufferedTurns.ProjectedIsFolded | packages/adapters-codex-app-server/src/codex-subagent-lifecycle-projector.ts:69-109 | projecting lifecycle updates on a link is updating the stored link with them |
| BufferedTurns.NewestStaysBuffered | packages/adapters-codex-app-server/src/codex-subagent-lifecycle-projector.ts:30-43 | of in-order turns the last one stays buffered; times increase, and starts may follow one another, because an interrupted turn gives no end |
| BufferedTurns.NewestSufficesIff | packages/adapters-codex-app-server/src/codex-subagent-lifecycle-projector.ts:69-109 | for every link, buffering only the newest gives the status of applying all turns, whatever the in-order turns, if and only if the child has not ended and its link carries no end after the start of its run |
| BufferedTurns.OpenLinkMayMissTurnsIff | packages/adapters-codex-app-server/src/codex-subagent-lifecycle-projector.ts:69-109 | for an open link and given in-order turns, buffering only the newest gives the status of applying them all if and only if there is no end among the turns, or the first one lies before the start of the run, or some start after it lies after the end that the link carries, or the last turn is an end and ranks highest |
| BufferedTurns.SpawnedLinkCanNeedMore | packages/adapters-codex-app-server/src/codex-subagent-items.ts:193-218 | a running child with the end of its tool call, and two turns before that end after which buffering gives another status |
| BufferedTurns.EndedLinkMayMissTurnsIff | packages/adapters-codex-app-server/src/codex-subagent-lifecycle-projector.ts:30-67 | for an ended link and given in-order turns, buffering only the newest gives the status of applying them all if and only if: when some start reopens the link, the last turn reopens it by itself or ranks no lower than it; and when none does, no turn ranks above both the link and the last turn |
| BufferedTurns.TurnsAfterEnd | packages/adapters-codex-app-server/src/codex-subagent-link-state.ts:120-177 | in-order turns give an ended link the status of the last turn if some start lies after the end in force, and else the highest status of the link and the turns |
| BufferedTurns.EndedLinkCanNeedMore | packages/adapters-codex-app-server/src/codex-subagent-lifecycle-projector.ts:178-191 | for every ended link, in-order turns after which buffering gives another status |
| RouteForest.DeltaEqualsFullIff | packages/adapters-codex-app-server/src/codex-app-server-adapter.ts:1167-1214 | for any route graph, cycles included, the delta of every thread equals its entry in the full list, if and only if no routed child of a listed thread is retained by another runtime |
| RouteForest.DeltaEqualsFullAtIff | packages/adapters-codex-app-server/src/codex-app-server-adapter.ts:1167-1214 | the delta of one thread equals its entry in the full list if and only if the first retained session on the way up from it is not a routed child, of a listed thread, that another runtime retains |
| RouteForest.DeltaCanMissChild | packages/adapters-codex-app-server/src/codex-app-server-adapter.ts:1167-1214 | a link, and sessions in two runtimes, for which the full list shows a subagent and its delta shows nothing |
| RouteForest.DeltaEqualsFullInOneRuntime | packages/adapters-codex-app-server/src/codex-app-server-adapter.ts:1167-1214 | with all sessions in one runtime, delta equals full for every thread |
| RouteForest.NearestUnfolds | packages/adapters-codex-app-server/src/codex-retained-session-owner.ts:16-35 | the nearest retained ancestor is the thread itself or that of its route parent, also when routes form a cycle |
| LiveSessionWalks.LiveSessions.FindRetainedSessionOwner | packages/adapters-codex-app-server/src/codex-retained-session-owner.ts:16-35 | the climb ends on any route graph and finds the nearest retained session, of this runtime only, with the route of the thread it started from |
| LiveSessionWalks.LiveSessions.ChangedLiveSessionSnapshots | packages/adapters-codex-app-server/src/codex-app-server-adapter.ts:1193-1214 | one snapshot for each changed thread with an owner in the runtime, in the order of the changed threads, and none for the others |
| LiveSessionWalks.LiveSessions.ListLiveSessionSnapshots | packages/adapters-codex-app-server/src/codex-app-server-adapter.ts:1167-1191 | exactly the retained sessions and the threads routed below them, each once |
| LiveSessionWalks.LiveSessions.DescendantRoutesForParent | packages/adapters-codex-app-server/src/codex-subagent-link-state.ts:471-529 | ends on any route graph; lists exactly the children reached through accepted children, each once, never the root, every route after the route of its parent |
| LiveSessionWalks.LiveSessions.ReleaseSessionTree | packages/adapters-codex-app-server/src/codex-app-server-adapter.ts:2074-2104 | releases the session and every routed child that goes with it, each once, children before parents |
| LiveSessionWalks.DeltaIsThePartThatChanged | packages/adapters-codex-app-server/src/codex-app-server-adapter.ts:1167-1214 | in one runtime, the delta of some changed threads is the part of the full list that shows them |
| MessageAdmissionProofs.RunKeepsInv | packages/adapters-codex-app-server/src/codex-turn-lifecycle.ts:168-410 | over every interleaving of sends, answers, rejections, lost answers, echoes and owner changes, publications match what callers were told |
| MessageAdmissionProofs.OutcomeDecidesPublication | packages/adapters-codex-app-server/src/codex-turn-lifecycle.ts:60-106 | a message is published at most once; exactly once, by its send, when reported accepted with its owner retained; never when refused, failed or unowned; only by an echo of its own text when reported unknown |
| MessageAdmissionProofs.OutcomeIsFinal | packages/adapters-codex-app-server/src/codex-turn-lifecycle.ts:485-502 | what a caller was told is never taken back, and no publication is withdrawn |
| MessageAdmissionProofs.PublishedOnlyBySendOrLaterEcho | packages/adapters-codex-app-server/src/codex-app-server-streaming.ts:456-463 | the only two steps that publish a message: its admitted send with the owner retained, or its echo after it was reported unknown |
| MessageAdmissionProofs.MatchingEchoPublishesUnknown | packages/adapters-codex-app-server/src/codex-app-server-streaming.ts:225-248 | the first waiting echo of a message reported unknown publishes it |
| MessageAdmissionProofs.RegisteredTurnsAreUnsettled | packages/adapters-codex-app-server/src/codex-turn-lifecycle.ts:386-410 | each thread has at most one registered turn, and it is unsettled |
| MessageAdmissionProofs.OnlyItsOwnEndUnregistersTurn | packages/adapters-codex-app-server/src/codex-turn-lifecycle.ts:397-403 | a registered turn gives way only to its own answer, a native end in its thread, or the release of its thread; never to the settling of another turn |
| TurnLifecycles.TurnLifecycle.StartTurn | packages/adapters-codex-app-server/src/codex-turn-lifecycle.ts:270-355 | keeps the invariant; a missing model leaves turns, registry and echoes as they were, a missing policy leaves one more settled turn and no registered one, and every other case a registered, unsettled turn; that turn is stranded, its request never sent and its send over, if and only if the client is missing or the caller is no longer current; the message waits for its echo exactly when the request was built |
| MessageAdmissionProofs.StepStrandsIff | packages/adapters-codex-app-server/src/codex-turn-lifecycle.ts:266-355 | a thread has a stranded turn after a step if and only if the step starts a turn there with its client missing or its caller no longer current, or it had one before and the step is neither a native end in the thread nor its release |
| MessageAdmissionProofs.MissingClientStrandsTurn | packages/adapters-codex-app-server/src/codex-turn-lifecycle.ts:278-281 | a run of three steps after which a thread has a turn that no answer will settle, for a missing client as for a stale caller |
| MessageAdmissionProofs.StrandedUntilEndOrRelease | packages/adapters-codex-app-server/src/codex-turn-lifecycle.ts:386-410 | a stranded turn stays registered through every run without a native end in its thread or a release of its thread |
| MessageAdmissionProofs.StrandedTurnBlocksTurns | packages/adapters-codex-app-server/src/codex-turn-lifecycle.ts:168-215 | no answer changes a stranded turn, and until it is gone every send that would start a turn in its thread fails |
| TurnLifecycles.TurnLifecycle.SteerTurn | packages/adapters-codex-app-server/src/codex-turn-lifecycle.ts:233-250 | keeps the invariant; the message is the last of the queue of its thread, with its echo outstanding and its send not over, before the start of the running turn is awaited, and the start counts as known exactly when that turn is bound |
| TurnLifecycles.TurnLifecycle.AnswerTurnStart | packages/adapters-codex-app-server/src/codex-turn-lifecycle.ts:324-351 | keeps the invariant; an answer binds the turn exactly when its session is retained; the turn settles exactly when the session is gone, the turn is over, or a conclusive rejection meets no echo that proves acceptance; then only this turn leaves the registry, and no other turn changes |
| TurnLifecycles.TurnLifecycle.MarkTurnSettled | packages/adapters-codex-app-server/src/codex-turn-lifecycle.ts:398-403 | settling a stale turn leaves the registered turn in place |
| TurnLifecycles.TurnLifecycle.ThrowUnlessEchoAccepted | packages/adapters-codex-app-server/src/codex-turn-lifecycle.ts:464-502 | keeps the invariant; a failed request is accepted only by the echo of a user message, and reported unknown exactly when an inconclusive failure of a user message has no echo yet; then its echo is kept to publish it later, and otherwise cancelled |
| TurnLifecycles.TurnLifecycle.FinishAdmitted | packages/adapters-codex-app-server/src/codex-turn-lifecycle.ts:368-380 | keeps the invariant; an admitted user message is published, once, exactly when its owner is still retained |
| TurnLifecycles.TurnLifecycle.CompleteUserMessage | packages/adapters-codex-app-server/src/codex-app-server-streaming.ts:456-463 | keeps the invariant; a native user message consumes the first waiting echo of its text, and publishes that message exactly when it was reported unknown, for the first time |
| EchoBooks.EchoBook.ExpectUserMessageEcho | packages/adapters-codex-app-server/src/codex-app-server-streaming.ts:365-379 | the echo joins the end of the queue of its thread |
| EchoBooks.EchoBook.CancelEcho | packages/adapters-codex-app-server/src/codex-app-server-streaming.ts:381-388 | cancelling removes the echo from the queue it joined |
| EchoBooks.EchoBook.ConsumeSyntheticUserMessage | packages/adapters-codex-app-server/src/codex-app-server-streaming.ts:225-248 | takes the first waiting echo with the text, and forgets an empty queue |
| MessageEchoes.CancelForgetsOthersIff | packages/adapters-codex-app-server/src/codex-app-server-streaming.ts:380-388 | cancelling makes a thread forget other waiting messages if and only if the thread was cleared, has a new queue, and the echo was the last of the old one |
| MessageAdmissionProofs.RefusalForgetsLaterEcho | packages/adapters-codex-app-server/src/codex-app-server-streaming.ts:380-388 | a run in which the refusal of a message cancels the last echo of a cleared queue, and the thread forgets the echo of a later message that still awaits its answer |
| PendingTables.PendingTable.Add | packages/adapters-codex-app-server/src/codex-pending-input-state.ts:100-135 | a request pending under its native key is returned as it is; a new one enters every index under a new occurrence id |
| PendingTables.PendingTable.PendingForSession | packages/adapters-codex-app-server/src/codex-pending-input-state.ts:539-554 | the listing equals filtering all entries by owner and runtime in registration order |
| PendingTables.PendingTable.RequireForSession | packages/adapters-codex-app-server/src/codex-pending-input-state.ts:210-236 | the lookup by session finds what the direct lookup finds, and is never ambiguous |
| PendingTables.PendingTable.ClaimForSession | packages/adapters-codex-app-server/src/codex-pending-input-state.ts:266-274 | a reply is claimed exactly when the session may see the request and no other reply is in flight |
| PendingTables.PendingTable.ApplyRoute | packages/adapters-codex-app-server/src/codex-pending-input-state.ts:374-396 | the route reaches the requests of its child in order up to the first conflict; the newly mirrored ones are returned |
| PendingTables.PendingTable.BindActiveTurn | packages/adapters-codex-app-server/src/codex-pending-input-state.ts:398-422 | the turn is bound to exactly the owned and mirrored requests of its runtime |
| PendingTables.PendingTable.Resolve | packages/adapters-codex-app-server/src/codex-pending-input-state.ts:424-439 | the occurrence leaves every index and its turn is returned; nothing else changes |
| PendingTables.PendingTable.ClearSession | packages/adapters-codex-app-server/src/codex-pending-input-state.ts:496-537 | the requests that the session owns in the runtime are gone, and those it mirrors are no longer mirrored |
| PendingTables.PendingTable.ClearRuntime | packages/adapters-codex-app-server/src/codex-pending-input-state.ts:483-494 | the requests of the runtime are gone |
| PendingInputProofs.RunKeepsInv | packages/adapters-codex-app-server/src/codex-pending-input-state.ts:86-98 | after any sequence of operations native keys and occurrences are in bijection, both session indexes are right, and claims and turn bindings name live entries only |
| PendingInputProofs.ListingIsAScan | packages/adapters-codex-app-server/src/codex-pending-input-state.ts:298-307 | listing through the owner index is a scan of all entries |
| PendingInputProofs.SessionLookupIsDirect | packages/adapters-codex-app-server/src/codex-pending-input-state.ts:659-686 | the session-indexed lookup equals the direct map lookup; its ambiguity branch is dead |
| PendingInputProofs.NativeIdNamesOneOccurrence | packages/adapters-codex-app-server/src/codex-pending-input-state.ts:79-84 | at one thread of one runtime a native id finds a pending occurrence if and only if it is the id of that occurrence |
| PendingInputProofs.ResolveUndoesAdd | packages/adapters-codex-app-server/src/codex-pending-input-state.ts:424-439 | resolving what was just added restores the whole table, but for the next occurrence id |
| PendingInputProofs.ClearedSessionIsExact | packages/adapters-codex-app-server/src/codex-pending-input-state.ts:458-481 | after a session clear the session lists nothing in the runtime and what it did in the others; other sessions list what they own as before, and mirror what they did but for the removed requests, in the same order; native ids find what they did but for those |
| PendingInputProofs.ClearedRuntimeIsExact | packages/adapters-codex-app-server/src/codex-pending-input-state.ts:483-494 | after a runtime clear no session owns or mirrors a request of the runtime and no native id finds one; for every other runtime owned and mirrored listings and native ids are as before |
| RequestKeys.KeysCollideIff | packages/adapters-codex-app-server/src/codex-app-server-approvals.ts:7-20 | two request ids share a key if and only if they are equal or one is a negative number and the other the string that spells it |
| RequestKeys.MinusFiveCollides | packages/adapters-codex-app-server/src/codex-app-server-approvals.ts:7-20 | the number -5 and the string "-5" are different ids with one key |
| RequestKeys.KeyIsInjectiveOnNaturalsAndTexts | packages/adapters-codex-app-server/src/codex-app-server-approvals.ts:7-20 | the key is injective on natural numbers and strings |
| RequestKeys.EmptyKeyIff | packages/adapters-codex-app-server/src/codex-app-server-approvals.ts:7-20 | only the empty string has the empty key |
| PendingRoutes.RunKeepsRoutes | packages/adapters-codex-app-server/src/codex-runtime-session-events.ts:543-604 | in every run without a session clear, each pending request of a thread carries exactly the route of the thread and is mirrored to its parent, releases of whole runtimes included |
| PendingRoutes.LearningAndRegisteringCommute | packages/adapters-codex-app-server/src/codex-runtime-session-events.ts:543-604 | learning a route and registering a request that come next to each other can be exchanged, up to the order in which a parent mirrors |
| PendingRoutes.InterleavingIsIrrelevant | packages/adapters-codex-app-server/src/codex-runtime-session-events.ts:543-604 | two runs that learn the same routes in the same order, and register, resolve and release the same requests in the same order, end alike however the two interleave, up to the order in which a parent mirrors |
| PendingRoutes.ClaimNeedsRoute | packages/adapters-codex-app-server/src/codex-pending-input-state.ts:210-274 | a claim by the parent session takes effect after the route is learned and has none before |
| PendingRoutes.LearnedRouteNeverConflicts | packages/adapters-codex-app-server/src/codex-pending-input-state.ts:622-648 | applying a learned route never meets a request with another route |
| RequestHandlers.RequestHandler.ProcessServerRequest | packages/adapters-codex-app-server/src/codex-runtime-session-events.ts:945-978 | an arriving request is refused, passed over as handled, answered by policy, or registered and announced, with the state each leaves |
| RequestHandlers.RequestHandler.RunWhileHandled | packages/adapters-codex-app-server/src/codex-app-server-server-requests.ts:205-224 | marks, registers and announces; a failed announcement withdraws the registration and the mark |
| RequestHandlers.RequestHandler.EndAnswer | packages/adapters-codex-app-server/src/codex-app-server-server-requests.ts:205-290 | the end of an automatic answer lets the next event of the runtime in; a failure takes back its mark, and leaves every pending request marked |
| RequestHandlers.RequestHandler.ForgetHandledServerRequest | packages/adapters-codex-app-server/src/codex-runtime-session-events.ts:271-285 | the key leaves the handled keys of the thread, and an empty set is dropped |
| RequestHandlers.RequestHandler.ResolvePendingServerRequest | packages/adapters-codex-app-server/src/codex-runtime-session-events.ts:733-785 | a native resolution resolves the one request pending under the native id and forgets its key |
| RequestHandlers.RequestHandler.StartReply | packages/adapters-codex-app-server/src/codex-pending-input-state.ts:266-284 | a reply starts exactly when it may be claimed, and captures the pending entry |
| RequestHandlers.RequestHandler.CompleteReply | packages/adapters-codex-app-server/src/codex-app-server-adapter.ts:1674-1679 | a delivered reply resolves its occurrence and forgets its native key |
| RequestHandlers.RequestHandler.ReleaseSession | packages/adapters-codex-app-server/src/codex-local-session-state.ts:58-70 | releasing a session clears its pending input and its handled keys together |
| RequestHandlers.RequestHandler.ReleaseRuntime | packages/adapters-codex-app-server/src/codex-app-server-adapter.ts:412-427 | releasing a runtime clears its pending input and its handled keys, and no answer in flight holds up its events |
| ServerRequestsProofs.FailedAnnouncementRestores | packages/adapters-codex-app-server/src/codex-app-server-server-requests.ts:297-332 | a failed announcement restores the handled keys and all pending indexes exactly |
| ServerRequestsProofs.AnnouncedRequestIsPending | packages/adapters-codex-app-server/src/codex-app-server-server-requests.ts:437-473 | an announced request is pending as it arrived, and marked |
| ServerRequestsProofs.RepeatedDeliveryIsIgnored | packages/adapters-codex-app-server/src/codex-app-server-server-requests.ts:199-203 | while a request is marked, further deliveries of it change nothing |
| ServerRequestsProofs.CompletedReplyFreesTheId | packages/adapters-codex-app-server/src/codex-app-server-adapter.ts:1674-1679 | a delivered reply frees the native id: nothing is pending under it and its key is not handled |
| ServerRequestsProofs.StepKeepsCoverageIff | packages/adapters-codex-app-server/src/codex-runtime-session-events.ts:271-285 | with the events of each runtime taken one at a time, a step leaves a pending request of a non-empty native key unmarked if and only if it completes a reply whose native id is meanwhile pending for another request |
| ServerRequestsProofs.EndingAnswerKeepsCoverage | packages/adapters-codex-app-server/src/codex-app-server-server-requests.ts:205-290 | the end of an automatic answer, failed or not, never unmarks a pending request |
| ServerRequestsProofs.NextIsSerialized | packages/adapters-codex-app-server/src/codex-runtime-session-events.ts:304-323 | in covered states every step keeps this: an automatic answer in flight is the one that its runtime waits for and nothing is pending under its key, or its runtime was released and no thread uses the set it holds |
| ServerRequestsProofs.RunIsCoveredIff | packages/adapters-codex-app-server/src/codex-app-server-server-requests.ts:199-224 | throughout a run the handled keys of every thread contain the key of every request pending there, the empty key aside, if and only if no step is of that kind |
| ServerRequestsProofs.RunIsUnambiguousIff | packages/adapters-codex-app-server/src/codex-pending-input-state.ts:182-208 | throughout any run no native request is both a pending approval and a pending question, if and only if no request is registered while one of the other kind is pending under its native key; RunIsUnambiguous and RunIsCoveredIff say when that can happen |
| ServerRequestsProofs.CollisionMeetsUnmarked | packages/adapters-codex-app-server/src/codex-app-server-server-requests.ts:199-203 | such a registration, with a non-empty native id, meets a pending request whose key is not among the handled keys of its thread |
| ServerRequestsProofs.RunIsUnambiguous | packages/adapters-codex-app-server/src/codex-pending-input-state.ts:182-208 | in such runs, with non-empty native ids, the native lookup is never ambiguous, at the end or before |
| ServerRequestsProofs.LateReplyLeavesRequestUnmarked | packages/adapters-codex-app-server/src/codex-app-server-adapter.ts:1674-1679 | a concrete run in which a late reply forgets the mark of a later request, and the native lookup becomes ambiguous |
| ServerRequestsProofs.EmptyIdIsAskedTwice | packages/adapters-codex-app-server/src/codex-app-server-server-requests.ts:199-208 | a concrete run in which the empty request id is pending as an approval and a question |
| Utf16.StringRangeFromUtf8ByteRange | packages/adapters-codex-app-server/src/codex-user-input-display.ts:99-136 | the loop computes the part of the string that the byte range selects, or nothing |
| Utf16.ByteRangeSelects | packages/adapters-codex-app-server/src/codex-user-input-display.ts:99-136 | a byte range selects a part if and only if it is not empty and both ends are code point boundaries; the part has the bytes of the range and cuts no surrogate pair, lone surrogates included |
| Utf16.IndexAtByteIff | packages/adapters-codex-app-server/src/codex-user-input-display.ts:92-136 | byte offsets and code point boundaries determine each other |
| DisplayPartsProofs.SourceTextsAddressTheMessage | packages/adapters-codex-app-server/src/codex-user-input-display.ts:625-716 | every source text of a display part addresses its own value in the flattened message, for any mix of inputs |
| DisplayPartsProofs.MarkedPartsTile | packages/adapters-codex-app-server/src/codex-user-input-display.ts:408-481 | plain parts and source texts of one marked text tile it without loss, overlap or reordering |
| DisplayPartsProofs.TextInputsAreSpelledOut | packages/adapters-codex-app-server/src/codex-user-input-display.ts:639-697 | marked, echoed or plain, the parts of a text input spell it out in full and in place |
| DisplayPartsProofs.EveryReferenceIsShown | packages/adapters-codex-app-server/src/codex-user-input-display.ts:625-699 | every skill and every file mention of a message is shown by some part |
| DisplayPartsProofs.MarksAreSorted | packages/adapters-codex-app-server/src/codex-user-input-display.ts:415-417 | the marked ranges are taken in the order of their starts, none lost |
| DisplayPartsLoops.UserInputsToDisplayParts | packages/adapters-codex-app-server/src/codex-user-input-display.ts:625-699 | the loop over the inputs computes the specified parts, and all of them address the message |
| DisplayPartsLoops.TextInputToDisplayParts | packages/adapters-codex-app-server/src/codex-user-input-display.ts:408-481 | the loop over the marked ranges computes parts that tile the text |
| DisplayPartsLoops.UserInputTextContributions | packages/adapters-codex-app-server/src/codex-user-input-display.ts:582-613 | what each input adds to the text, with each marked skill consumed once |
| DisplayPartsProofs.SkillContributesIff | packages/adapters-codex-app-server/src/codex-user-input-display.ts:582-613 | a skill adds its marker to the text if and only if no marked range is left for it, each range serving one skill in order, and the text before it does not end with the marker |
| DisplayPartsLoops.UserInputListToText | packages/adapters-codex-app-server/src/codex-user-input-display.ts:701-716 | the contributions joined with a space where neither side has one |
| DisplayPartsLoops.CollectMarkedSkillMarkerCounts | packages/adapters-codex-app-server/src/codex-user-input-display.ts:532-550 | how often each skill marker is marked in the text inputs |
| DisplayPartsLoops.FindFileMentionMarkerRange | packages/adapters-codex-app-server/src/codex-user-input-display.ts:258-278 | the earliest marker of a mention in a text, and the longest of those |
| WorkflowContext.CutIntoParts | packages/adapters-codex-app-server/src/codex-workflow-context.ts:9-22 | the parts concatenate to the prompt, are cut between code points, are never empty, take at most 3000 bytes, and are the fewest of any such split |
| WorkflowContext.CutIsMinimal | packages/adapters-codex-app-server/src/codex-workflow-context.ts:9-22 | no aligned split within the bound has fewer parts |
| WorkflowContext.ValuesFitTheNativeLimit | packages/adapters-codex-app-server/src/codex-workflow-context.ts:23-31 | every value stays within the native 4000 bytes |
| WorkflowContext.KeysSortIff | packages/adapters-codex-app-server/src/codex-workflow-context.ts:23-26 | for every revision, the keys of all parts sort in part order if and only if there are at most a hundred million parts |
| SessionPaging.ListPage | packages/adapters-codex-app-server/src/codex-session-metadata.ts:29-81 | a page takes rows from the front of the merge of both streams and leaves the rest to its token; the token is null only when both streams are finished |
| SessionPaging.ListAllPages | packages/adapters-codex-app-server/src/codex-session-metadata.ts:29-81 | with distinct ids, following the tokens to the end gives the two-way merge of the two filtered listings, whatever the pages of the server |
| SessionPaging.MergeLosesNothing | packages/adapters-codex-app-server/src/codex-session-metadata.ts:65-74 | no row is lost or repeated by the merge |
| SessionPaging.MergeIsOrdered | packages/adapters-codex-app-server/src/codex-session-metadata.ts:67-71 | the merge of ordered streams is ordered by time, then id |
| SessionPaging.MergePreservesStreamOrder | packages/adapters-codex-app-server/src/codex-session-metadata.ts:65-74 | the merge keeps the order of each stream |
| SessionPaging.NoCursorRepeats | packages/adapters-codex-app-server/src/codex-session-metadata.ts:54-55 | a server whose pages end never triggers the repeated-page error |
| ImageBatches.ReservationsAreExact | packages/adapters-codex-app-server/src/codex-generated-image-resolver.ts:109-157 | after any run: at most two reservations; one exactly for each batch unreleased or still read; exact read counts; released batches empty; retained and in-flight bytes within 96 MiB per batch |
| ImageBatches.PassedOverIff | packages/adapters-codex-app-server/src/codex-generated-image-resolver.ts:141-149 | an image is passed over if and only if it does not fit beside those admitted before it |
| ImageBatches.AllThatFitsIsAdmitted | packages/adapters-codex-app-server/src/codex-generated-image-resolver.ts:141-149 | selections that fit together are all admitted |
| ImageBatches.RunKeepsInv | packages/adapters-codex-app-server/src/codex-generated-image-resolver.ts:360-373 | every interleaving of begins, reads, expiries and releases keeps that |
| ImageBatches.ReplacedRuntimeDrains | packages/adapters-codex-app-server/src/codex-generated-image-resolver.ts:90-98 | a replaced runtime object with no reads left holds no reservation |
| ImageRuntimes.ImageRuntime.BeginBatch | packages/adapters-codex-app-server/src/codex-generated-image-resolver.ts:109-135 | a batch is reserved for one to eight distinct images unless two are reserved |
| ImageRuntimes.ImageRuntime.FillBatch | packages/adapters-codex-app-server/src/codex-generated-image-resolver.ts:136-156 | the images that fit are retained in order; a batch released meanwhile retains nothing |
| ImageRuntimes.ImageRuntime.TakeImage | packages/adapters-codex-app-server/src/codex-generated-image-resolver.ts:190-213 | a read takes its image out of the batch and counts as active until it ends; an expired batch is released |
| ImageRuntimes.ImageRuntime.EndRead | packages/adapters-codex-app-server/src/codex-generated-image-resolver.ts:234-236 | a finished read drops the reservation of a released batch that has no other read |
| ImageRuntimes.ImageRuntime.ReleaseRuntime | packages/adapters-codex-app-server/src/codex-generated-image-resolver.ts:90-98 | replacing a runtime object releases all its batches |
| AsyncQuestions.ReplayEqualsLive | packages/adapters-codex-app-server/src/codex-async-questions.ts:254-278 | loading the history projected from any events into a fresh session leaves the same pending questions in the same order as processing the events live |
| AsyncQuestions.AnnotationsChangeNothing | packages/adapters-codex-app-server/src/codex-app-server-streaming.ts:172-186 | the resolved ids that the live path writes into the events do not change the outcome |
| AsyncQuestions.ReloadChangesNothing | packages/adapters-codex-app-server/src/codex-async-questions.ts:254-278 | loading the same history again changes nothing, whatever the session knew |
| AsyncQuestions.HandledStaysHandled | packages/adapters-codex-app-server/src/codex-async-questions.ts:236-248 | in every run without a clear a handled question never becomes pending again, and claims are of pending questions |
| BackgroundQuestionStates.BackgroundQuestions.ProcessEvents | packages/adapters-codex-app-server/src/codex-app-server-streaming.ts:168-195 | the live loop over events adds and resolves questions as specified |
| BackgroundQuestionStates.BackgroundQuestions.LoadHistory | packages/adapters-codex-app-server/src/codex-async-questions.ts:254-278 | the history loop rebuilds the pending questions and reports whether they changed |
| BackgroundQuestionStates.ProjectToHistory | packages/adapters-codex-app-server/src/codex-history-projector.ts:5-122 | the projection loop yields a history whose replay equals the live state |
| BackgroundQuestionStates.BackgroundQuestions.Claim | packages/adapters-codex-app-server/src/codex-async-questions.ts:280-309 | a reply is claimed exactly when its request is pending and unclaimed and each of its questions has an answer that is not blank; it returns one trimmed answer per question in order, and otherwise says what is wrong and claims nothing |
| ThreadInventory.CachedInventoryIsCurrent | packages/adapters-codex-app-server/src/codex-thread-inventory.ts:167-192 | in every run the cached inventory of a runtime came from a fetch of that runtime that no refresh superseded and no clear invalidated, and no fetch is pending beside it |
| ThreadInventory.CompletionIsCachedIff | packages/adapters-codex-app-server/src/codex-thread-inventory.ts:172-181 | a completed fetch becomes the cached inventory if and only if nothing made it outdated meanwhile |
| ThreadInventory.OutdatedStaysOutdated | packages/adapters-codex-app-server/src/codex-thread-inventory.ts:43-51 | an outdated fetch never fills the cache, whenever it completes |
| ThreadInventory.ReadAfterRefreshIsServedByIt | packages/adapters-codex-app-server/src/codex-thread-inventory.ts:58-77 | a read after a refresh is served by that refresh, and after a clear by a new fetch |
| ThreadInventory.OverridesChangeOnlyViews | packages/adapters-codex-app-server/src/codex-thread-inventory.ts:103-120 | status overrides never reach the cache and change only the overridden threads of a view |
| ThreadInventory.WithStatusOverrides | packages/adapters-codex-app-server/src/codex-thread-inventory.ts:194-219 | the returned view has the overridden statuses, and counts those threads as loaded |
| ThreadInventory.FetchPages | packages/adapters-codex-app-server/src/codex-thread-inventory.ts:237-316 | the page loop ends for any server with finitely many cursors, with the items of all pages in order or by refusing a repeated cursor |
| ThreadInventory.FetchLoadedThreadIds | packages/adapters-codex-app-server/src/codex-thread-inventory.ts:237-258 | the loop that collects thread ids ends likewise, with exactly the ids of all pages |
| ThreadInventory.ThreadsById | packages/adapters-codex-app-server/src/codex-thread-inventory.ts:229-234 | the map holds, for each id that occurs, the last thread with it |
| ThreadInventory.FetchInventory | packages/adapters-codex-app-server/src/codex-thread-inventory.ts:222-235 | a fetch ends with exactly the ids and threads of all pages, or with nothing when either listing repeats a cursor |
| InventoryReaders.InventoryReader.Read | packages/adapters-codex-app-server/src/codex-thread-inventory.ts:58-68 | a read is answered from the cache, joins a pending fetch, or starts one |
| InventoryReaders.InventoryReader.Refresh | packages/adapters-codex-app-server/src/codex-thread-inventory.ts:70-77 | a refresh drops the cache and joins a pending refresh or supersedes a pending read |
| InventoryReaders.InventoryReader.ClearInventory | packages/adapters-codex-app-server/src/codex-thread-inventory.ts:43-51 | a clear drops the cache and disowns the pending fetch |
| InventoryReaders.InventoryReader.EndInventoryRead | packages/adapters-codex-app-server/src/codex-thread-inventory.ts:172-189 | only the pending fetch fills the cache |
| JsonScan.ExtractFirstJsonObject | scripts/audit-utils.ts:75-123 | the scan returns the text from the first brace to the one that closes it |
| JsonScan.ExtractsThePrintedObject | scripts/audit-utils.ts:75-123 | for any prefix without an opening brace and any rest, the extractor returns exactly the printed object, whatever its strings contain |
| JsonScan.ValuePasses | scripts/audit-utils.ts:85-120 | a printed value inside an object leaves the scan as it entered it |

## Left out

- SubagentLinksProofs.RunKeepsAgreement: assumes that one spawn item of a parent names one child, and that no other child of that parent has the id of the item, because the indexes can disagree otherwise; UpdateKeepsAgreementExactly has the exact condition of one update.
- PendingRoutes.RunKeepsRoutes: covers runs without session clears, and routes whose parent session belongs to the runtime of the link, because the source refuses to apply any other route.
- PendingRoutes.InterleavingIsIrrelevant: leaves the order open in which a parent lists mirrored requests of several children, because that order does depend on which came first. Claims and turn bindings keep their place among the routes, because a parent session reaches a request only through its route (ClaimNeedsRoute).
- ImageBatches.ReservationsAreExact: counts per runtime object; when a runtime is replaced, reads of the old object keep its reservations while the new object starts with none. Images held while a batch is being selected are not counted.
- SessionPaging.ListPage: assumes a server whose pages end, because the source reads on for as long as the server continues.
- AsyncQuestions.ReplayEqualsLive: assumes that the questions of items do not block, which the parser of such items always gives.
- WorkflowContext.ValuesFitTheNativeLimit: assumes fewer than 10^380 parts, because the header of a value spells out the number of parts.
- ThreadInventory.FetchPages: stands for the two page loops that collect a list.
- DisplayPartsProofs.MarkedPartsTile: which skill a repeated marker names is left to the specified order of the skills and is not stated separately.
- The waits of a send for its subscription and for the start of a steered turn are steps on values only; the class `TurnLifecycle` performs the steps that register, settle, expect and publish.
- Links without a runtime, the prompt, description, agent and metadata fields of a link, and the events built from them.
- The caps of 500 waiting echoes and 100 buffered threads, and the live status flag of a session.
- Normalising the whitespace of an echoed message: texts stand for their normalised form.
- Inventory reads for selected directories, which never touch the cache.
- What a file reference derives from its path, the name of a local image, and the parts made from composer input.
- The session map of background questions, how questions are read from items, and the encoding of replies and skips.
- Transport, schemas, clocks, random ids, event listeners beyond success or failure, and JSON encoding of tokens.
- Session start, resume, fork and title handling, policies, transcript and tool normalisation.
