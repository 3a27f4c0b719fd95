# Verified models of projmux's exactly-once cores

projmux drives provider agents (Codex, Claude) from outside and promises that a message, an approval answer or a
question result reaches a provider at most once, whatever crashes, races or expires in between. This project models the
parts of the repository that carry those promises and proves them in Dafny 4.11.

- **Control epoch** (`Control*.dfy`, `TurnPush.dfy`). One object per provider connection takes notifications, control
  requests and revocation. `ControlSpec` gives each entry point as a function on the epoch's state, `ControlEpoch` is the
  object itself with its fields updated step by step, `ControlSafety`, `ControlApprovals` and `ControlDelivery` hold what is
  true of every run, `ControlAnswers` says of every request and notification what it changes and what it is answered, and
  `TurnPush` is the sender's reading of the answers.
- **Peer claim ledger** (`Peer*.dfy`). The prune, envelope, claim, write order as a machine over durable claim files, volatile
  claims, crashes and new epochs; `PeerGate` is the imperative code, each of whose steps is an event of that machine.
- **Lifecycle reducer** (`Lifecycle*.dfy`). The event-driven reducer, the ledger of approval notices that are outside,
  and, in `LifecycleExact`, what each input accepts, tracks, shows, withdraws and announces.
- **Question-result outbox** (`Outbox*.dfy`, `PartRefs.dfy`). The crash-recoverable delivery of result parts.
- **Held-message release** (`Release.dfy`, `TurnEnd.dfy`). The in-order drain with its one window, and the transcript judgment.
- **Test shards** (`Regex.dfy`, `Shard*.dfy`). The prefix-tree selector, read back as a regular expression, and the evidence
  checker.
- **WebSocket client** (`Bytes.dfy`, `WebSocket*.dfy`). Frames, fragmentation, masking and budgets, by sections 5.2 to 5.5 of
  RFC 6455.
- **Observation reader** (`BoundedTree.dfy`, `Observation.dfy`). The structure bound and the freeze, release, complete order.

Code that updates fields or works in loops is a class or a method with loop invariants, proved against a specification
function; what the code promises is then proved of that function, on the fields of its inputs and its state. Where other processes act between two steps, the method
calls `Interfere`, whose contract is all that is known about them.

Conditions the proofs make explicit:

- The sender reads two refusals without a write as unknown all the same: a blank deliver or steer, which shares its code with
  a steer the provider refused, and a peer claim already used, whose earlier write may be the unknown one. Every other refusal
  is read as known exactly when nothing was written or the provider answered a peer write with an error
  (`KnownRefusalExactlyWhen`).
- Until somebody else settles the stored record, every push shows the sender the truth; after that it shows what was stored,
  which need not fit the push (`PushIsHonestUntilSettled`). `ExpiryDuringPushMisleads` is such a push: the deadline settles the
  record while the provider takes the turn.
- A peer reference is written at most once more than the message store accepts it again after pruning it, whatever happens to
  the other references. `ReacceptingRewrites` reaches that bound for every number of such acceptances.
- A result part is written twice exactly when two of its references reached the provider and one of them is a known failure, on
  record or by the receipt of its send, which the store need not have (`WrittenTwiceExactlyWhen`). There are two orders, and
  each has a run with two writes. In `MisreportRewrites` a written message is settled as a known failure. In
  `LateWriteRewrites` a message is settled so first and written afterwards. The code permits the second: the status read
  settles an unwritten held record as stale, with a known outcome, on a changed or unanswered route
  (`internal/services/agentmessages/service.go:120-143`), while a release still pushes its listed copy of the record
  (`internal/app/agent_message_hold.go:406-453`) and marking the hand-off of a settled record is no error
  (`internal/integrations/agents/agentmessage/store.go:453-474`). A part with neither event is written at most once, whatever
  happens to the other parts.
- The outbox takes two things from its surroundings. The clock never goes back between two steps (`Tick`), across processes as
  well. One reference is written at most once by its own adapter: for Codex that is `PeerWrittenAtMostOnce`, and for Claude it
  is that a helper writes a reference once, which is not part of this model.
- An accepted event of the lifecycle reducer that ends in approval-required has notified every pending approval exactly when it
  does not mask one (`NoneBehindExactlyWhen`). Only a resolution masks: it raises nothing, so under waiting-on-approval, in a
  turn that is not completed and with no other input request in progress, it leaves behind whatever pending approval it does
  not remove and no earlier event notified. `InputMasksApproval` and `ResolutionLeavesMasked` are the two kinds. Over a run
  none is left behind exactly when no event masks one.
- The notice ledger balances at a step exactly when the step does not clash: no approval that it is about to raise shares its
  notice id with another pending approval that is notified or about to be raised, and no resolved approval shares it with a
  notified one (`StepBalancesExactlyWhen`). Over a run it balances throughout exactly when no step clashes.
  `CollidingNoticeIsRaisedTwice` is a run from a new epoch that raises one id twice; item ids without a colon never clash.
- A release pushes by the copy of the record that it listed. The store still holds that record, without a hand-off, exactly
  when nothing changed the record since the listing was read. `OvertakenCopyIsPushed` gives both other cases: a record that is
  settled, or whose hand-off is seen, during a wait is pushed all the same.
- The selector is exact exactly for non-empty name lists: the empty list prints an empty group, which matches every text.
- A true turn-end answer on a cut transcript carries over to the whole transcript exactly when no line before the cut is
  malformed.

Where a comment and the code differ, the model follows the code. The comment on part references says that a new attempt needs
proof that the previous write failed (`internal/integrations/agents/agentquestion/cli_async.go:565-566`); the dispatcher also
mints one after a deadline expiry, which proves no such thing. `PartWrittenAtMostOnce` holds because a message expires only at
or after the result deadline, and from then on no send starts.

## Model

| member | source | states |
|---|---|---|
| ControlEpoch.CodexControlEpoch.constructor | internal/app/agent_control_epoch.go:98-105 | a new epoch is active, tracks the trimmed snapshot and owns both empty maps |
| ControlEpoch.CodexControlEpoch.Revoke | internal/app/agent_control_epoch.go:262-270 | revocation drops both maps and the turn, and makes no call |
| ControlEpoch.CodexControlEpoch.ApplyNotification | internal/app/agent_control_epoch.go:272-331 | the new state is the specified one for every notification, and nothing is called |
| ControlEpoch.CodexControlEpoch.Handle | internal/app/agent_control_epoch.go:333-451 | state, response and outside calls of a request are those of the specification |
| ControlEpoch.CodexControlEpoch.StartText | internal/app/agent_control_epoch.go:354-386 | start: read, fence, reconcile, check, write, in that order |
| ControlEpoch.CodexControlEpoch.SteerText | internal/app/agent_control_epoch.go:387-432 | steer: the cached turn is checked before and after the read, never retargeted |
| ControlEpoch.CodexControlEpoch.InterruptCurrent | internal/app/agent_control_epoch.go:433-445 | interrupt writes to the tracked turn only |
| ControlEpoch.CodexControlEpoch.DeliverText | internal/app/agent_control_epoch.go:453-502 | deliver: at most one retry of the read, then a start or a steer |
| ControlEpoch.CodexControlEpoch.Matches | internal/app/agent_control_epoch.go:504-513 | the scan finds the pending approvals with the request id, each once |
| ControlEpoch.CodexControlEpoch.ReviewApproval | internal/app/agent_control_epoch.go:504-533 | review deletes the approval before it answers it |
| ControlEpoch.CodexControlEpoch.ReconcileTurn | internal/app/agent_control_epoch.go:587-596 | a changed or ended turn empties both maps |
| ControlEpoch.CodexControlEpoch.PeerContext | internal/app/agent_control_epoch.go:666-751 | peer: read, fence, prune, fence, envelope, fence, claim, write |
| ControlEpoch.CodexControlEpoch.PeerAdmission | internal/app/agent_control_epoch.go:694-726 | pruning, the second envelope read and the claim, each behind its fence |
| ControlSafety.HandleSound | internal/app/agent_control_epoch.go:333-533 | each request keeps the invariant, makes at most one provider mutation and makes it last; the four text writes come after a fence that held after the last lifecycle read |
| ControlSafety.StepKeepsInv | internal/app/agent_control_epoch.go:262-331 | notifications, requests and revocation keep raw-id keys, one thread, one turn, and pending apart from poisoned |
| ControlSafety.RunKeepsInv | internal/app/agent_control_epoch.go:98-105 | the invariant holds after every interleaving from a new epoch |
| ControlSafety.RevokedStaysSilent | internal/app/agent_control_epoch.go:262-277 | after revocation no run makes an outside call again |
| ControlApprovals.RequestAnswersPending | internal/app/agent_control_epoch.go:504-533 | one request answers a raw id at most once, and only by taking it out of pending |
| ControlApprovals.AnswersNeverExceedAdmissions | internal/app/agent_control_epoch.go:285-301 | over any run the answers to a raw id never exceed its admissions, even when writes fail |
| ControlApprovals.ConflictPoisons | internal/app/agent_control_epoch.go:288-297 | a second, different envelope under a pending id poisons it |
| ControlApprovals.RequestBounded | internal/app/agent_control_epoch.go:333-502 | a request that is no review empties both maps exactly when, by its inputs, it is admitted and crosses a turn boundary: the one shown by the read it reconciles with, or the one of the start that it writes and the provider accepts |
| ControlApprovals.PoisonEndsExactlyWhen | internal/app/agent_control_epoch.go:262-331 | a poisoning ends exactly with revocation, the resolution of its id or a boundary of the tracked turn, and no step answers a poisoned id |
| ControlApprovals.PoisonedNeverAnswered | internal/app/agent_control_epoch.go:285-301 | over any run without one of those inputs the id stays poisoned and unanswered |
| ControlAnswers.ReviewAnswersExactlyWhen | internal/app/agent_control_epoch.go:504-529 | the provider is told a decision exactly when it is the one requested, for the one pending approval with that request id, which offers it and whose kind allows it |
| ControlAnswers.ReviewClaims | internal/app/agent_control_epoch.go:521-532 | an answered review has taken its approval out of pending, a cancel marks the turn interrupted, and nothing else moves |
| ControlAnswers.ReviewRefuses | internal/app/agent_control_epoch.go:504-520 | a review that is not answered changes nothing and says whether the request or the decision was at fault |
| ControlAnswers.UnadmittedIsTold | internal/app/agent_control_epoch.go:336-344 | a request for another epoch, binding or connection changes nothing and is told which |
| ControlAnswers.StatusServes | internal/app/agent_control_epoch.go:346-349 | the availability is what the tracked thread and turn allow, review is open exactly for an unshared request id with a decision, and the list is the pending approvals |
| ControlAnswers.InterruptWritesExactlyWhen | internal/app/agent_control_epoch.go:433-445 | an interrupt is written exactly while a turn runs, to that turn, and marks it interrupted exactly when confirmed |
| ControlAnswers.AnswersFollowCalls | internal/app/agent_control_epoch.go:354-533 | one law for every operation: a written request is done exactly when the provider's answer fits its last call, and otherwise refused with the code of that call and error |
| ControlAnswers.DeliverFollowsThread | internal/app/agent_control_epoch.go:472-499 | with a fresh read an idle or failed thread takes a new turn, a running one a steer, any other nothing |
| ControlAnswers.StartWritesWhat | internal/app/agent_control_epoch.go:354-378 | a start writes its text to its thread after one read and two fences |
| ControlAnswers.PeerWritesWhat | internal/app/agent_control_epoch.go:720-745 | a peer message writes the stored text right behind its claim, as a turn or as context by what the thread is doing |
| ControlAnswers.ReadRefusalsTell | internal/app/agent_control_epoch.go:207-261 | each code of a refused lifecycle read has one cause and no other refusal has that code |
| ControlAnswers.PeerReadCodes | internal/app/agent_control_epoch.go:666-727 | each code of a refused peer message has one cause |
| ControlAnswers.UnreadIsTold | internal/app/agent_control_epoch.go:354-391 | a text request that never gets to its read is told what is missing and changes nothing |
| ControlAnswers.RequestTracks | internal/app/agent_control_epoch.go:587-596 | after a text request the tracked thread and turn are those of the started turn, of the read that was reconciled, or the old ones |
| ControlAnswers.NotificationsTrack | internal/app/agent_control_epoch.go:306-319 | the tracked thread and turn follow the own thread's notifications, field by field |
| ControlAnswers.AdmittedExactlyWhen | internal/app/agent_control_epoch.go:279-302 | a raw id becomes answerable exactly by an approval of the tracked turn under a new, unpoisoned id |
| ControlAnswers.PoisonedExactlyWhen | internal/app/agent_control_epoch.go:288-297 | a raw id is poisoned exactly by a second, different approval of the tracked turn under it |
| ControlAnswers.LostExactlyWhen | internal/app/agent_control_epoch.go:285-328 | an answerable raw id is lost to a notification exactly by a conflict, its resolution or a turn boundary |
| ControlDelivery.ValidSnapshotsDecide | internal/app/agent_control_epoch.go:564-600 | a valid snapshot admits exactly one of a start and a steer |
| ControlDelivery.DeliverWritesExactlyWhen | internal/app/agent_control_epoch.go:453-502 | when a delivery writes, as an equivalence on its inputs |
| ControlDelivery.DeliverWritesWhat | internal/app/agent_control_epoch.go:472-493 | which call the delivery writes, and to which turn |
| ControlDelivery.DeliverNeverFindsNoTurn | internal/app/agent_control_epoch.go:486-491 | the no-active-turn refusal of a delivery is unreachable |
| ControlDelivery.DeliverReadsAtMostTwice | internal/app/agent_control_epoch.go:457-464 | a delivery reads the lifecycle at most twice |
| ControlDelivery.PeerNeverFindsNoTurn | internal/app/agent_control_epoch.go:690-693 | the no-active-turn refusal of a peer message is unreachable |
| ControlDelivery.SteerNeverRetargets | internal/app/agent_control_epoch.go:387-419 | a steer writes to the turn cached at its entry or not at all, and exactly when stated |
| ControlDelivery.SteerNeverReportsDrain | internal/app/agent_control_epoch.go:408-416 | the drained branch after a steer's read is unreachable |
| ControlDelivery.StartWritesExactlyWhen | internal/app/agent_control_epoch.go:354-386 | when a start writes, as an equivalence on its inputs |
| ControlDelivery.PeerWritesExactlyWhen | internal/app/agent_control_epoch.go:666-751 | every fence, the fresh envelope and both claims are needed and enough for a peer write |
| TurnPush.KnownRefusalExactlyWhen | internal/app/agent_message.go:368-408 | the sender reads a known refusal exactly when nothing was written or the provider answered a peer write with an error, up to two cautious codes |
| TurnPush.VerdictsExactlyWhen | internal/app/agent_message.go:368-408 | a text write is read as delivered exactly when the provider confirmed it, and a start as refused by a busy thread exactly when its read showed one |
| TurnPush.PushCodexCoordination | internal/app/agent_message.go:410-456 | what the sender is shown after one push, from its own copy and from the record the store holds by then |
| TurnPush.PushConcludesExactly | internal/app/agent_message.go:410-445 | a push ends expired exactly past its deadline, delivered exactly when confirmed, and as a known failure exactly when nothing was sent, it was refused before any write, or the provider answered an error |
| TurnPush.PushShowsConclusion | internal/app/agent_message.go:446-456 | that ending is what is shown once the store takes it, and a delivery the store cannot take is shown as unknown |
| TurnPush.TerminalCoordination | internal/app/agent_message.go:458-490 | the record the store holds after the event, a settled one unchanged, or the projection on the caller's copy when the store fails |
| TurnPush.PushIsHonestUntilSettled | internal/app/agent_message.go:410-456 | while nobody else has settled the stored record, a shown known failure had no provider write and a shown success had one; afterwards the stored ending is shown, and is the truth exactly when it fits |
| TurnPush.ExpiryDuringPushMisleads | internal/core/agentmessage/message.go:448-453 | the deadline settles the record during a push that writes, and the sender is shown the expiry |
| TurnPush.PeerDoneMeansWritten | internal/app/agent_control_epoch.go:728-750 | an accepted peer answer comes only after a provider write |
| PeerLedger.WritesWithinAcceptances | internal/app/agent_control_epoch.go:694-750 | over every run with crashes, new epochs, settlement and pruning a reference is written at most once for each time the store accepts it |
| PeerLedger.PeerWrittenAtMostOnce | internal/app/agent_control_epoch.go:694-750 | a reference that the store never accepts again after pruning it is written at most once, whatever happens to the others |
| PeerLedger.NextKeepsInv | internal/app/agent_control_epoch.go:763-882 | every step keeps a reference whose writes are spent behind its durable claim until its record is final |
| PeerLedger.CheckSaysExactly | internal/app/agent_control_epoch.go:790-805 | the prune check says yes exactly for a record settled with a known outcome |
| PeerLedger.ClaimOutlivesUnknown | internal/app/agent_control_epoch.go:789-845 | a durable claim outlives every crash, epoch and pruning pass until the outcome of its message is known |
| PeerLedger.ReacceptingRewrites | internal/app/agent_control_epoch.go:789-845 | for every n some run that accepts a pruned reference n times again writes it n + 1 times |
| PeerGate.Gate.Lookup | internal/app/agent_control_epoch.go:790-805 | one store read a reference and pass, cached; it fails only when the store does |
| PeerGate.Gate.PruneUsed | internal/app/agent_control_epoch.go:806-814 | exactly the references found settled leave the volatile claims |
| PeerGate.Gate.PruneFile | internal/app/agent_control_epoch.go:822-842 | one claim file goes exactly when it is not empty and its reference was found settled |
| PeerGate.Gate.PruneFiles | internal/app/agent_control_epoch.go:815-844 | exactly the claim files of references found settled go, empty files stay |
| PeerGate.Gate.ClaimFile | internal/app/agent_control_epoch.go:847-882 | the exclusive claim: created once, full at the limit, refused beside an older file, and failing either before its file exists or behind a torn one |
| PeerGate.Gate.SeeAgain | internal/app/agent_control_epoch.go:704-710 | a claim follows exactly when the record is authorized and still open after pruning |
| PeerGate.Gate.Admit | internal/app/agent_control_epoch.go:694-750 | an admission is a run of the ledger machine: it writes once and within the reference's acceptances, or names the cause for which it did not |
| LifecycleReducer.Reducer.Begin | internal/app/agent_interaction.go:91-117 | the state and projection of a new epoch |
| LifecycleReducer.Reducer.Invalidate | internal/app/agent_interaction.go:119-133 | invalidation clears every pending notice |
| LifecycleReducer.Reducer.Apply | internal/app/agent_interaction.go:135-254 | state and projection of every event are those of the specification |
| LifecycleReducer.Reducer.RequestInput | internal/app/agent_interaction.go:308-327 | an input request is tracked only for the current turn in progress |
| LifecycleReducer.Reducer.Raise | internal/app/agent_interaction.go:343-362 | exactly the unnotified approvals of the turn are raised and marked |
| LifecycleReducer.Reducer.CollectIDs | internal/app/agent_interaction.go:364-382 | the ids of the pending, or of the notified pending, approvals |
| LifecycleSafety.BeginEstablishesInv | internal/app/agent_interaction.go:91-117 | a new epoch starts in the invariant |
| LifecycleSafety.StepKeepsInv | internal/app/agent_interaction.go:135-254 | every pending approval belongs to the current turn, and a completed turn shows its completion |
| LifecycleSafety.RejectedIsSilent | internal/app/agent_interaction.go:135-139 | a rejected event changes nothing and announces nothing |
| LifecycleSafety.CompletionSurvives | internal/app/agent_interaction.go:277-280 | a completion survives everything but a new turn or invalidation |
| LifecycleSafety.RaisingLeavesNoneBehind | internal/app/agent_interaction.go:156-199 | a status or approval event that ends in approval-required has notified every pending approval |
| LifecycleSafety.NoneBehindExactlyWhen | internal/app/agent_interaction.go:156-215 | an accepted event that ends in approval-required has notified every pending approval exactly when it is not a resolution that leaves an unnotified one in sight |
| LifecycleSafety.RunLeavesNoneBehindExactlyWhen | internal/app/agent_interaction.go:135-254 | over a run no approval is left unannounced under approval-required exactly when no event of it masks one |
| LifecycleSafety.InputMasksApproval | internal/app/agent_interaction.go:200-215 | an approval that arrived under an input request stays unnotified when the input resolves |
| LifecycleSafety.ResolutionLeavesMasked | internal/app/agent_interaction.go:206-215 | resolving one approval leaves another unnotified one behind, under approval-required |
| LifecycleSafety.NoticeIDsAreInjective | internal/app/agent_interaction.go:384-386 | notice ids of one turn are injective for colon-free item ids |
| LifecycleSafety.RaisingBalancesExactlyWhen | internal/app/agent_interaction.go:343-362 | raising announces each notice once, none of them outstanding, exactly when no approval to be raised shares its id with a notified or another raised one |
| LifecycleSafety.ResolveBalancesExactlyWhen | internal/app/agent_interaction.go:200-215 | a resolution balances the ledger exactly when no other notified approval shares the id |
| LifecycleSafety.StepBalancesExactlyWhen | internal/app/agent_interaction.go:135-254 | every event changes the notices outside as it says it does exactly when it does not clash |
| LifecycleSafety.RunBalancesExactlyWhen | internal/app/agent_interaction.go:135-254 | a run balances at every step exactly when no step of it clashes |
| LifecycleSafety.ColonFreeNeverClashes | internal/app/agent_interaction.go:384-386 | item ids without a colon never clash over any run |
| LifecycleSafety.CollidingNoticeIsRaisedTwice | internal/app/agent_interaction.go:384-386 | from a new epoch two approval events with colons in their ids raise one notice id twice |
| LifecycleSafety.NoticesBalance | internal/app/agent_interaction.go:135-254 | over a run of one epoch without a clash, notices raised minus ids cleared are exactly the notified pending approvals |
| LifecycleSafety.EpochsEndClean | internal/app/agent_interaction.go:119-133 | after any epoch ends, clashes or not, no approval notice of it is left outside |
| LifecycleSafety.AnnouncedAtMostOnce | internal/app/agent_interaction.go:216-248 | between two accepted turn starts at most one completion and one loud failure are announced |
| LifecycleExact.AcceptedExactlyWhen | internal/app/agent_interaction.go:135-254 | an input counts exactly when it is of this epoch and thread and names the current turn, a pending request or an unended turn |
| LifecycleExact.StepTracks | internal/app/agent_interaction.go:135-254 | the tracked thread, turn, input request, ended turns and announced failure after an accepted input, field by field |
| LifecycleExact.StepKeepsPending | internal/app/agent_interaction.go:170-215 | which approvals are pending after an accepted input |
| LifecycleExact.StepShows | internal/app/agent_interaction.go:267-306 | the interaction after an accepted input is what the thread, turn, input request and approvals show |
| LifecycleExact.StepClears | internal/app/agent_interaction.go:135-254 | an accepted input withdraws all pending notices at a boundary, the raised ones when waiting ends, the resolved one, or none |
| LifecycleExact.EndIsAnnounced | internal/app/agent_interaction.go:216-248 | an accepted end of a turn announces exactly its completion or its failure, and an already announced failure only for the queue |
| LifecycleExact.ErrorIsAnnounced | internal/app/agent_interaction.go:156-169 | a thread in system error is announced exactly when no failure has been since the turn started |
| LifecycleExact.ApprovalsAreAnnounced | internal/app/agent_interaction.go:156-199 | a status or approval event announces exactly the unannounced pending approvals, when approval is what it shows |
| LifecycleExact.OthersAnnounceNothing | internal/app/agent_interaction.go:135-254 | every other accepted input announces nothing |
| LifecycleExact.AnnouncedExactlyOnce | internal/app/agent_interaction.go:216-248 | over every run the completions announced are the accepted completions, and the loud failures the first failures |
| LifecycleExact.BeginShows | internal/app/agent_interaction.go:91-117 | when a new epoch counts, and what it tracks and shows |
| LifecycleExact.InvalidationShows | internal/app/agent_interaction.go:119-133 | invalidation counts exactly for the active epoch, withdraws every pending notice and forgets the turn |
| OutboxSafety.WrittenTwiceExactlyWhen | internal/app/agent_question_async.go:250-361 | over every run with a crash after any step, a part is written at most once unless two of its references were, one of them a known failure on record or by its receipt |
| OutboxSafety.PartWrittenAtMostOnce | internal/app/agent_question_async.go:250-361 | over every run in which no written reference of the part is settled as a known failure and no known failure of it is written, the part is written at most once |
| OutboxSafety.DeliveredMeansWritten | internal/app/agent_question_async.go:363-385 | the outcome delivered means every part was written, and once exactly unless it was so resent |
| OutboxSafety.NextKeepsInv | internal/app/agent_question_async.go:250-361 | every step keeps, part by part, one reference that can still be written or was, unless a known failure was written |
| OutboxSafety.PartMovesExactly | internal/app/agent_question_async.go:335-361 | a part is settled exactly by a delivered receipt, doubted exactly by an unknown one or by doubt itself, and sending exactly by its claim |
| OutboxSafety.AttemptMovesExactly | internal/app/agent_question_async.go:317-353 | a new reference follows exactly a failed or expired receipt, ten seconds an attempt later and at most a minute; a refusal waits five |
| OutboxSafety.SummaryMovesExactly | internal/app/agent_question_async.go:363-385 | the closing scan delivers the record exactly when every part is settled |
| OutboxSafety.StartKeepsOneLive | internal/app/agent_question_async.go:314-317 | a send that starts before the result deadline starts on a part of which no reference is live |
| OutboxSafety.RetryKeepsOneLive | internal/app/agent_question_async.go:342-353 | a new reference is minted only past a known failure or a deadline, and leaves no other live one |
| OutboxSafety.MisreportRewrites | internal/app/agent_question_async.go:342-353 | a written message settled as a known failure is written again |
| OutboxSafety.LateWriteRewrites | internal/app/agent_message_hold.go:406-453 | a message settled as a known failure before its write, and written after it, is a second write |
| OutboxDispatch.Dispatcher.Dispatch | internal/app/agent_question_async.go:199-388 | a pass is a run of the machine: every due unfinished part is handled, a part is written at most once exactly unless it was resent past a written known failure, and delivered means every part was written |
| OutboxDispatch.Dispatcher.DispatchPart | internal/app/agent_question_async.go:250-361 | only the part at hand changes: doubt on a conflict or a lost reference, one send for a due pending part that can be routed, a new attempt only past a known failure or a deadline |
| OutboxDispatch.Dispatcher.ObservePart | internal/app/agent_question_async.go:259-292 | a stored reference is observed, never submitted: an open one under a sending claim becomes unknown, any other settles by its receipt |
| OutboxDispatch.Dispatcher.SendPart | internal/app/agent_question_async.go:314-353 | the claim is committed before the one send, and what came back after it |
| OutboxDispatch.Dispatcher.SendClaimed | internal/app/agent_question_async.go:317-353 | one send of a claimed part: no acceptance makes the same reference due again, a receipt settles the part |
| OutboxDispatch.Dispatcher.Submit | internal/services/agentmessages/send.go:56-58 | an empty receipt accepts nothing, a lifetime that is not positive is refused, and a failure or expiry in the receipt need not have reached the store |
| OutboxDispatch.Dispatcher.Commit | internal/integrations/agents/agentquestion/cli_async.go:337-363 | a locked update that may fail before or after the record is durable |
| OutboxDispatch.Dispatcher.ExpireIfDue | internal/integrations/agents/agentmessage/store.go:523-531 | the status read expires an open record past its deadline, as unknown once its hand-off was observed |
| OutboxDispatch.Dispatcher.Summarized | internal/app/agent_question_async.go:363-385 | the closing scan gives the record's outcome |
| PartRefs.PartRefIsInjective | internal/integrations/agents/agentquestion/cli_async.go:565-577 | two attempts of one result share a reference exactly when they are the same attempt of the same part |
| Release.HeldReleaseWindowEnd | internal/app/agent_message_hold.go:387-399 | the window ends ten minutes on, or at the earliest deadline still ahead |
| Release.BackoffLevels | internal/app/agent_message_hold.go:356-358 | the wait doubles from two seconds and stays at thirty |
| Release.JudgesExactly | internal/app/agent_message_hold.go:406-453 | a judgment pushes exactly to an accepting target that does not await its operator, in time and without a hand-off; what it closes, how, and what it waits for |
| Release.Releaser.ReleaseHeldMessage | internal/app/agent_message_hold.go:406-453 | one judgment pushes, closes or leaves the record by what its view shows; a push is in order, in time, to a target that does not await its operator, and by a listed copy without a hand-off, which the store still holds so exactly when it did not change; a closing is of unknown outcome exactly when a hand-off was seen |
| Release.OvertakenCopyIsPushed | internal/app/agent_message_hold.go:406-453 | a record settled or handed off by another process during a wait is pushed by its listed copy |
| Release.Releaser.JudgeHeldMessage | internal/app/agent_message_hold.go:339-385 | the judging loop ends, with the record no longer held or the window over |
| Release.Releaser.JudgeThenWait | internal/app/agent_message_hold.go:346-384 | one judgment and its wait: another follows only with less of the window left, or once a wait when the turn behind an open dialog ended |
| Release.Releaser.Await | internal/app/agent_message_hold.go:362-384 | each wait stays inside the one window and shortens it |
| Release.Releaser.ReleasePass | internal/app/agent_message_hold.go:287-301 | a pass that finishes has attempted every record of its listing |
| Release.Releaser.ReleaseHeldMessages | internal/app/agent_message_hold.go:256-306 | no message is pushed while an older listed one is held or while its target awaits its operator, and none that is settled or handed off unless it changed since it was listed; all waits sum to at most ten minutes and end by every deadline that was ahead; a quiescent return leaves nothing held; a window stop hands off exactly when an unlisted record is held |
| Release.Releaser.HeldSinceListed | internal/app/agent_message_hold.go:315-326 | whether a held record was never listed |
| TurnEnd.ClaudeTurnEndedAfter | internal/app/agent_message_turn_end.go:39-72 | true exactly when every line reads and the last turn end is after the block with no tool use behind it |
| TurnEnd.ScanLines | internal/app/agent_message_turn_end.go:47-66 | the scan's variables describe the last turn end of the lines |
| TurnEnd.SuffixDecides | internal/app/agent_message_turn_end.go:47-71 | the answer depends only on the suffix from the last turn end |
| TurnEnd.NextLineDecides | internal/app/agent_message_turn_end.go:47-71 | each further line decides anew: a turn end takes over, a possible tool use or a malformed line ends the answer, an unreadable message counting as one, and any other line keeps it |
| TurnEnd.TailRefinesWhole | internal/app/agent_message_turn_end.go:39-72 | a tail cut at any byte answers true exactly when the whole does and the tail shows a turn end |
| TurnEnd.TrueTailCarriesExactlyWhen | internal/app/agent_message_turn_end.go:39-72 | a true tail answer carries over exactly when no earlier line is malformed |
| TurnEnd.Registry.CommitTurnEnd | internal/app/agent_message_turn_end.go:176-213 | the compare-and-set commits exactly on the very observation that was judged |
| TurnEnd.Registry.EndBlockedTurn | internal/app/agent_message_turn_end.go:154-168 | a recorded turn end rests on the transcript and on the very block that was judged |
| Shard.SelectorTree.Insert | scripts/unit-shards.py:30-35 | inserting a name adds the path of its first ten characters and marks its end |
| Shard.AppPattern | scripts/unit-shards.py:26-46 | the built tree, printed, or a refusal over the byte budget |
| ShardExact.EmitReads | scripts/unit-shards.py:37-41 | the printed node parses back to its own shape in every closing context |
| ShardExact.ShapeFinds | scripts/unit-shards.py:37-41 | a node's expression matches exactly when a mark below it fits |
| ShardExact.PatternIsExact | scripts/unit-shards.py:26-46 | the selector matches exactly the listed short names and ten-character prefixes |
| ShardExact.PatternIsExactExactlyWhen | scripts/unit-shards.py:26-46 | that holds for every text exactly when the list is not empty |
| ShardExact.RefusedExactlyWhen | scripts/unit-shards.py:43-46 | an ASCII selector is refused exactly when it is longer than 4096 characters |
| ShardVerify.CohortIsClosed | scripts/unit-shards.py:20-23 | a one-line name is selected by a cohort's patterns exactly when it belongs to the cohort |
| ShardVerify.SelectorCheckCannotFail | scripts/unit-shards.py:72-81 | the equality check before the run can never fail |
| ShardVerify.Tally | scripts/unit-shards.py:143-152 | one manifest's packages are checked and gathered |
| ShardVerify.Verify | scripts/unit-shards.py:122-154 | accepted exactly when the four manifests are evidence |
| ShardVerify.AcceptsIsEvidence | scripts/unit-shards.py:115-154 | evidence, spelled out: four shards, each of status zero at this head, run and attempt, all it owns listed and completed, its own part of the tests executed, and one list of names for every package |
| ShardVerify.LessDecides | scripts/unit-shards.py:138-140 | the order of names and packages is that of code points |
| ShardVerify.UnionCovers | scripts/unit-shards.py:153-154 | the final union check never decides |
| ShardVerify.ExecutedExactlyOnce | scripts/unit-shards.py:115-154 | accepted evidence executed every inventoried test exactly once over all shards, and no other |
| Bytes.XorDiffers | scripts/agent-dialogue-websocket.py:82-82 | a bit of an exclusive or is set exactly where the operands' bits differ |
| Bytes.XorBack | scripts/agent-dialogue-websocket.py:82-82 | masking is its own inverse |
| WebSocketExact.HeadReads | scripts/agent-dialogue-websocket.py:124-131 | a canonical header is read back, or refused over a budget |
| WebSocketExact.HeadIsCanonical | scripts/agent-dialogue-websocket.py:124-131 | an accepted header is canonical: unmasked, no reserved bit, shortest length |
| WebSocketExact.LongLengthTakenExactlyWhen | scripts/agent-dialogue-websocket.py:124-131 | a length in two or in eight bytes is taken exactly when no shorter form could carry it, within the budgets |
| WebSocketExact.ReadInvertsFragmentation | scripts/agent-dialogue-websocket.py:119-146 | every split with interleaved pings and pongs is read back whole when it fits and is text, and refused otherwise |
| WebSocketExact.AcceptedIsScript | scripts/agent-dialogue-websocket.py:119-146 | whatever is accepted was one message a server may send |
| WebSocketExact.AcceptsExactlyWhen | scripts/agent-dialogue-websocket.py:119-146 | a message is returned exactly when the stream starts with one that is text and fits |
| WebSocketExact.ReadsExactly | scripts/agent-dialogue-websocket.py:119-146 | the text, the pings answered and the bytes consumed are those of its frames |
| WebSocketExact.ClientFrameUnmasks | scripts/agent-dialogue-websocket.py:76-82 | every client frame parses and unmasks back to its payload under any mask |
| WebSocketExact.ClientFrameIsMasked | scripts/agent-dialogue-websocket.py:72-82 | behind the four mask bytes the wire carries, bit by bit, where payload and repeated mask differ |
| WebSocketExact.PingIsAnswered | scripts/agent-dialogue-websocket.py:119-146 | a ping, 0x89 on the wire, is answered by a pong, 0x8A, with its payload |
| WebSocketExact.CloseIsRefused | scripts/agent-dialogue-websocket.py:119-146 | a close, 0x88, ends the reading as closed |
| WebSocketExact.TextIsReturned | scripts/agent-dialogue-websocket.py:119-146 | a short text frame, 0x81, is the message, within 128 frames and eight megabytes |
| WebSocket.DataRefusals | scripts/agent-dialogue-websocket.py:119-146 | each label of a refused data frame has one cause |
| WebSocket.ControlRefusals | scripts/agent-dialogue-websocket.py:119-146 | each label of a refused control frame has one cause |
| WebSocketClient.MessageConnection.Exact | scripts/agent-dialogue-websocket.py:62-70 | exactly the next bytes, however they are chunked |
| WebSocketClient.MessageConnection.SendFrame | scripts/agent-dialogue-websocket.py:72-82 | one masked frame inside both budgets, or none |
| WebSocketClient.MessageConnection.ReadMessage | scripts/agent-dialogue-websocket.py:119-146 | the reading function's result and pongs, or a refusal that latches |
| WebSocketClient.MessageConnection.SendAll | scripts/agent-dialogue-websocket.py:111-117 | one text frame without the newline, or a refusal that latches; on a reliable open connection it is sent exactly when it ends in a newline and fits the budgets |
| BoundedTree.BoundTree | scripts/agent-dialogue-codex-observation.py:63-79 | the worklist accepts exactly the trees within every bound |
| BoundedTree.BoundedExactly | scripts/agent-dialogue-codex-observation.py:63-79 | a tree is bounded exactly when every path into it ends within thirty-two steps at a small node |
| Observation.ObservationReader.CheckCommand | scripts/agent-dialogue-codex-observation.py:290-318 | freeze, match, completion or progress of the one command |
| Observation.ObservationReader.SetExpectedResult | scripts/agent-dialogue-codex-observation.py:320-323 | the result is set once, after the freeze |
| Observation.ObservationReader.ScanItems | scripts/agent-dialogue-codex-observation.py:338-355 | the items are distinct and harmless, users counted and commands collected |
| Observation.ObservationReader.CheckSnapshot | scripts/agent-dialogue-codex-observation.py:325-357 | a snapshot moves the reader only through its one command |
| Observation.ObservationReader.CheckNotification | scripts/agent-dialogue-codex-observation.py:359-374 | started and completed notifications, once each and in time order |
| Observation.ObservationReader.AcceptFrame | scripts/agent-dialogue-codex-observation.py:376-400 | the facts so far, or a refusal that is final |
| Observation.RunIsLater | scripts/agent-dialogue-codex-observation.py:258-400 | over every run the frozen item and the released result never change and completion is never taken back |
| Observation.FactsAreStable | scripts/agent-dialogue-codex-observation.py:396-400 | returned facts agree with every earlier fact, and completion has a released result behind it |
| Observation.CompletesExactlyWhen | scripts/agent-dialogue-codex-observation.py:308-318 | the tool completes exactly when its frozen item exited with zero and its bounded output reads as the released result |
| Observation.FreezesExactlyWhen | scripts/agent-dialogue-codex-observation.py:290-307 | an item freezes exactly when asked for, first, allowed and running without a result |
| Observation.CommandTakenExactlyWhen | scripts/agent-dialogue-codex-observation.py:290-318 | a command item counts exactly as the freeze, as progress of the frozen item or as its completion |
| Observation.SnapshotTakenExactlyWhen | scripts/agent-dialogue-codex-observation.py:325-357 | a snapshot counts exactly when it shows the one allowed turn with one prompt and one command that counts, and no error behind a completed one |
| Observation.NotificationTakenExactlyWhen | scripts/agent-dialogue-codex-observation.py:359-374 | a notification counts exactly as the first start or as the first completion, not before the start |
| Observation.FrameTakenExactlyWhen | scripts/agent-dialogue-codex-observation.py:376-400 | a frame yields facts exactly when nothing was refused before, the budgets hold, it counts, and an item is frozen |
| Observation.ResultTakenExactlyWhen | scripts/agent-dialogue-codex-observation.py:320-323 | the expected result is taken exactly once, after the freeze, in its closed form |

## Left out

- The order of `approvals`, `pendingNoticeIDs` and the raised notices: they are sets here, sorted lists in the source.
- `HasActionableRequest` and `refreshProjection`: read-only views that would add easy members.
- JSON decoding, rendering, receipts' text and refusal wording: decoded values and closed codes are inputs and outputs.
- Contexts, mutexes and file locks: a request runs alone, and a lock is an exclusive section.
- Route and authority checks of the stored peer envelope: one arbitrary answer, taken with the record's state.
- ControlEpoch.CodexControlEpoch.PeerContext: the claim store's answers are inputs here; PeerGate models them.
- OutboxDispatch.Dispatcher.Dispatch: one result at a time; waiting questions, the part state failed that no code path writes, and 32-bit attempt wrap-around are not modelled.
- OutboxDispatch.Dispatcher.Commit: a crash inside a method is a prefix of its run followed by the machine's crash event, not a state of the class.
- Release.Releaser.ReleaseHeldMessages: it ends because finitely many references can be held while it runs, which a store that is refilled for ever does not promise.
- Release.Releaser.Sleep: a pause never ends early, as with a context that is never cancelled.
- TurnEnd.ClaudeTurnEndedAfter: only ASCII white space is trimmed from a line.
- Shard.SelectorTree.Insert: the nested dictionaries are one map from path to node, so sharing of inner dictionaries is not modelled.
- ShardVerify.Verify: manifests are taken in any order, since acceptance does not depend on it; the summary file is not modelled.
- ShardVerify.Home: the digest is an arbitrary function of the prefix.
- WebSocketClient.MessageConnection.Remaining: whether the deadline has passed is an arbitrary answer, not clock arithmetic.
- The HTTP upgrade of the WebSocket client.
- Schema validation in the observation reader: schema-valid frames are a precondition, and other exceptions than a refusal are not modelled.
- Sockets, process launch, tmux, relaunch and host transfer.
