# Verified model of the CRM's automation, filter, conversation and calling core

Whatomate is a customer-messaging server: rules react to events with trees of
steps that may wait for days, segments are written as filter trees and compiled
to SQL, conversations open and close as customers and agents write, contacts are
merged, calls are recorded, bridged and transferred. This project states what
those parts promise and proves it for every input, every run and every
interleaving of their steps.

`dafny verify dfyconfig.toml` checks everything. One file is one module.

**Automation.** `AutomationSteps`, `AutomationFlow` and `AutomationCheck` are the
step tree, the runner that walks it and the editor's structural check.
`AutomationResume` proves that parking at a wait and resuming later, any number
of times, is invisible; `AutomationPath` reads off the tree which steps are
performed, and how each ends, and proves that this is what happens;
`AutomationWaits` says how long a leg parks, and `AutomationEngine` is the stored
run. `Outbox` and `Dispatch` are the delivery protocol around it: relays,
at-least-once delivery, claims by unique key, crashes anywhere; over its runs
`DispatchWaits` proves that a wait lasts and `DispatchRows` that the row of a
finished run is true. `CrmEvents` and `Cascade` are the loop
protection that makes a chain of rules end. What an action does, how the database
answers a question and how long a wait is are arguments (`World`).

**Filters.** `ContactFilter` is the filter tree, its validation and its direct
meaning; `Sql` a three-valued semantics and a parser for the fragment of SQL the
compiler writes; `Like` the LIKE matcher and escaper; `FilterCompiler` the
compiler, proved to mean the filter; `FilterAcceptance` says which filters are
accepted, by what the compiler does with them. Case folding, number and date parsing are
arguments (`Session`).

**Conversations and contacts.** `Conversations` is the state machine with the log
of what happened to each row, `ConversationPromises` what each operation is for in
the words of the rows and their logs, `ConversationService` the operations as they
run.
`ContactMerge` is the forest of merged contacts with deletion and restoration,
`ContactReferences` what a merge does with everything that named the secondary.

**Calls.** `OggCrc`, `OggPages`, `OggOverflow` and `CallRecorder` are the checksum,
the page format with its reader, pages too long for their count, and the recorder;
`OggLayout` reads the bytes of a recording where RFC 3533 and RFC 7845 have them.
`TransferSignals` and `AudioBridge` are the signalling between the goroutines of a
call, one step per critical section.

**Boards and teams.** `Ranks` and `Board` are the fractional card keys,
`Assignment` round robin, load balancing and the offer rotation.

Logs and counters that a model keeps beside the real state (a conversation's log,
`messages` and `connects` in `TransferSignals`, `mergeNo`, `History`, `performed`) are read by
no operation; they are what the real columns are compared with.

## What turned out not to hold as documented

- A merge resolves the secondary's live conversation but leaves its
  `waiting_since`. The documented meaning of that column survives an operation
  exactly when it is not such a merge (`StepKeepsDocumentedWait`); a two-step run
  shows it (`MergeLeavesAWaitBehind`).
- `Reopen` reads the conversation before it locks the contact. If a merge moves
  the row in between and the customer comes back, `reopened_count` is raised on a
  conversation that is already live; it stays exact in every other case
  (`StepKeepsCount`). A run of five operations shows it (`StaleReopenOvercounts`).
- The sweep of stale conversations lists rows first and resolves each by its
  contact later. Whatever runs in between, it closes only what is stale exactly when
  nobody has written in the contact's live conversation since the cutoff, and it
  is awake and of a status swept (`LateResolution`, `ListedAndWritten`); a customer
  who writes in between is closed on (`SweepClosesAFreshConversation`).
- A restore decides by the row it read earlier. A merged contact stays deleted
  exactly as long as the contact was not merged in between (`ContactMerge.StepKeepsSound`,
  and a run that revives one: `RestoreRevivesAMergedContact`).
- An inbound message follows one merge pointer only: after a second merge the
  message gets a new contact, while the identity table always leads to the
  survivor (`MergedIsNeverFound`, `IdentityFollowsMerges`; two chained merges:
  `SecondHopIsNotFollowed`).
- A resumed run that a step stops does not record the lists around it as skipped
  (`StoppedHistory`; a rule of four steps: `ResumedHistoryIsShorter`).
- A date range whose ends are not dates validates and then does not compile
  (`CompilesExactly`, `ValidatesAndDoesNotCompile`).
- Two terminators may settle the same transfer; the first wakes the IVR, and the
  second may then take the channel of the next transfer and answer for it. An
  outcome goes to its own transfer exactly as long as no channel is made while a
  terminator is between its status update and its take, and no transfer is settled
  before the channel's own has started (`StepKeepsOwned`,
  `OutcomeOfItsTransfer`); any other step leads to a wrong outcome within two more
  (`TimelyExactly`), and a run of twelve steps ends with one
  (`LateTerminatorAnswersForTheNext`).
- 48 packets of 1275 bytes, the longest Opus allows, overflow a page's one-byte
  segment count, and the recording never reads back (`LargestPacketsOverflow`); up
  to 1274 bytes all is well. A recording of one page without empty packets reads
  back exactly when the page fits (`OnePageReadsBackExactly`), a longer one
  exactly when all do, provided the first overflow shows in its own page or is on
  the last one (`ReadsBackExactly`). The end of the stream is marked only when the
  packets do not fill their last page (`StreamIsWellFormed`).
- A card lands where it was dropped exactly when the neighbours named are adjacent
  (`LandsIffAdjacent`); keys stay distinct exactly as long as a moved card's key is
  that of no other card of the column (`StepKeepsDistinct`), for which adjacent
  neighbours are enough (`AdjacentKeyIsFresh`). A card dropped below one with
  another underneath, naming only the first, can get the other's key
  (`NotAdjacentCanCollide`).
- A run's unique key guards against redelivery only as long as its row exists, and
  rows that do not wait are pruned after 30 days. A rule starts at most once per
  event exactly when no event is claimed again after that (`StartsOnceExactly`,
  `PrunedRunStartsTwice`).
- An event whose append to the automation stream fails is published all the same
  and never offered again (`MissedForGood`, `FailedAppendIsMissed`); while no append
  fails, everything published arrives (`StreamGetsEverything`).

## Model

| member | source | states |
|---|---|---|
| `AutomationSteps.CountIsIds` | internal/automation/steps.go:196-202 | the step count is the number of ids in the whole tree, branches included |
| `AutomationSteps.ContinuationFoundIffStepFound` | internal/automation/steps.go:209-236 | a continuation is found for exactly the ids the step search finds, which are the ids of the tree |
| `AutomationSteps.ContinuationIds` | internal/automation/steps.go:209-221 | the rest of the program after a step holds only other steps of the tree, each once, and is strictly smaller |
| `AutomationSteps.ContinuationComposes` | internal/automation/steps.go:209-221 | the place after a step inside a continuation, found from the whole tree, is that list's own continuation and the lists behind it |
| `AutomationFlow.StepRunner.Run` | internal/automation/flow.go:52-78 | the runner's loop over one list: a pause leaves the rest out, a stop records it as skipped |
| `AutomationFlow.StepRunner.RunAction` | internal/automation/flow.go:80-106 | one action: its result, and whether its failure stops the run |
| `AutomationFlow.StepRunner.RunCondition` | internal/automation/flow.go:108-134 | a question: recorded, then the branch it picks is walked; one that cannot be answered stops the run (`AutomationPath.UninterruptedMeans` says which branch) |
| `AutomationFlow.StepRunner.RunWait` | internal/automation/flow.go:136-163 | a wait parks the run, or counts as done in a dry run |
| `AutomationFlow.StepRunner.RunLists` | internal/automation/flow.go:331-336 | a resume walks the remaining lists until one halts |
| `AutomationFlow.FinishWaitResult` | internal/automation/flow.go:393-401 | only the last waiting result of the step is marked as done, in place |
| `AutomationFlow.SummariseRun` | internal/automation/engine.go:456-480 | a run failed, partly failed or succeeded by whether some result failed and some succeeded |
| `AutomationResume.WalkAccounts` | internal/automation/flow.go:52-163 | a walk that parks, plus its continuation with the wait marked done, is the uninterrupted walk |
| `AutomationResume.ResumeAccounts` | internal/automation/flow.go:331-336 | what a resume did against the uninterrupted walk of the same lists: equal, stopped with skips unrecorded, or parked inside one list |
| `AutomationResume.ResumeKeepsAccount` | internal/automation/flow.go:312-349 | one resume finds its place, keeps the account of the whole run, and leaves strictly less to do |
| `AutomationResume.DriveRefines` | internal/automation/flow.go:284-363 | any number of resumes keeps the run a refinement of the uninterrupted walk |
| `AutomationResume.WaitingIsInvisible` | internal/automation/flow.go:312-363 | a finished run executed the same steps with the same outcomes in the same order and has the same status as one uninterrupted walk; with no stop the histories are equal |
| `AutomationResume.EveryRunFinishes` | internal/automation/flow.go:253-281 | a run is over after at most as many resumes as the rule has steps |
| `AutomationResume.EachStepAtMostOnce` | internal/automation/flow.go:284-363 | at every moment of a run each step has been recorded at most once |
| `AutomationResume.RecordedInOrder` | internal/automation/flow.go:284-363 | what is recorded so far is a prefix of the uninterrupted walk's steps |
| `AutomationPath.UninterruptedMeans` | internal/automation/flow.go:52-163 | for every tree and world: a step is performed if and only if every question around it was answered towards its branch and no step performed before it stops the run; in written order, once; each ends as its kind, settings and `continueOnError` say |
| `AutomationPath.FinishedRunMeans` | internal/automation/flow.go:284-363 | so does every run that no longer waits, however often it parked and was resumed |
| `AutomationPath.UninterruptedRecords` | internal/automation/flow.go:52-67 | which steps are recorded, performed or skipped: those all of whose questions were performed and answered towards them |
| `AutomationWaits.StartParks` | internal/automation/flow.go:136-163 | in a run's first leg a wait with a length is the last result, and the leg is parked for exactly that length |
| `AutomationWaits.ResumeParks` | internal/automation/flow.go:312-349 | and in every leg after it |
| `AutomationEngine.Run.Execute` | internal/automation/engine.go:133-148 | the first leg stores the walk's results and parks or finishes with their status |
| `AutomationEngine.Run.Resume` | internal/automation/flow.go:284-363 | with the run row gone only the wait is cancelled; a deleted or switched-off rule, a missing contact or a removed step cancels both, in that order; otherwise the next leg is stored and the wait is claimed or pending again |
| `AutomationEngine.FinishedStatus` | internal/automation/flow.go:351-363 | a finished run has the status of the uninterrupted walk |
| `AutomationEngine.StoppedHistory` | internal/automation/flow.go:331-336 | a stopped resume lacks exactly the skips of the lists behind the one it stopped in; the histories are equal if and only if those are empty |
| `AutomationEngine.ResumedHistoryIsShorter` | internal/automation/flow.go:331-336 | a question with a wait in its branch, a failing step behind it and one more step: resumed, the run's history lacks the skip the uninterrupted one has |
| `AutomationCheck.CheckSteps` | internal/automation/steps.go:94-155 | accepted if and only if every step fits its place, there are at most 40 steps and all ids differ; a rejection's reason is true of the tree |
| `AutomationCheck.PassesExactly` | internal/automation/steps.go:104-155 | the walk's running check passes exactly when the declarative condition holds |
| `AutomationCheck.DuplicateIdIsRepeated` | internal/automation/steps.go:118-122 | an id reported as duplicate occurs twice |
| `AutomationCheck.TooManyIsTooMany` | internal/automation/steps.go:109-113 | a rule reported as too long is |
| `AutomationCheck.ProblemsExactly` | internal/automation/steps.go:104-183 | exactly the unfinished steps are reported, each with what it lacks: a question not filled in or not valid, a wait without a length, under 60 seconds or over 30 days, settings missing |
| `AutomationCheck.StepChecker.Walk` | internal/automation/steps.go:104-155 | the checker's fields after a list: the first structural error, the ids seen, the count and the problems |
| `AutomationCheck.StepChecker.CheckCondition` | internal/automation/steps.go:157-171 | the problem reported for a question that is not filled in |
| `AutomationCheck.StepChecker.CheckWait` | internal/automation/steps.go:173-183 | the problem reported for a wait without a length |
| `Outbox.StepKeepsSound` | internal/crmevents/relay.go:101-147 | claim, hand, publish, prune and crash each keep the outbox sound |
| `Outbox.NothingPrunedUnhanded` | internal/crmevents/relay.go:101-185 | in every run no committed event is pruned before every sink has had it |
| `Outbox.HandedOnceWithoutCrashes` | internal/crmevents/relay.go:101-147 | without crashes no sink gets an event twice, however many relays run |
| `Outbox.FromNothing` | internal/crmevents/relay.go:101-185 | both from the empty outbox on |
| `Outbox.KeptForRetention` | internal/crmevents/relay.go:169-185 | in any run from nothing, an event's row is gone only after a pruning more than the retention time after the event itself was published |
| `Outbox.StepKeepsFed` | internal/crmevents/relay.go:149-167 | the automation stream holds exactly what its sink was called with until, and only until, such a call fails |
| `Outbox.StreamGetsEverything` | internal/crmevents/relay.go:101-147 | from the empty outbox, while its sink never fails: every event published or pruned is in the stream, and just once without crashes |
| `Outbox.MissedForGood` | internal/crmevents/relay.go:120-141 | an event published without having been appended is never offered to the stream again, in any run |
| `Outbox.FailedAppendIsMissed` | internal/crmevents/relay.go:120-141 | one failed append is enough for that |
| `Dispatch.MoveKeepsInvariant` | internal/automation/engine.go:92-148 | every database step of every worker keeps all runs faithful to the uninterrupted walk |
| `Dispatch.EveryRunKeepsInvariant` | internal/automation/consumer.go:113-178 | so does every interleaving of deliveries, redeliveries, crashes and resumes |
| `Dispatch.NextLeg` | internal/automation/flow.go:312-349 | a claimed resume continues the run's own history |
| `Dispatch.ClaimKeepsOneHolder` | internal/automation/engine.go:258-266 | the insert-if-absent claim gives a run to one worker |
| `Dispatch.ClaimWaitKeepsOneHolder` | internal/automation/flow.go:253-281 | the guarded update of a wait gives the resume to one worker |
| `Dispatch.AtMostOnce` | internal/automation/engine.go:120-131 | pruning included, as long as no event is claimed or skipped for a rule again once its run's row is pruned: a rule starts at most once per event, performs each step at most once and in order, and has at most one pending wait |
| `DispatchWaits.WaitsLast` | internal/automation/flow.go:253-281 | in every interleaving, what a run performs after one of its waits belongs to a leg that begins at least the wait's length after the leg the wait was in |
| `DispatchWaits.ComesDue` | internal/automation/flow.go:253-266 | a pending wait is at a wait of the rule, and an idle worker may claim it if and only if that wait's length has passed since the leg that parked began |
| `DispatchRows.FinishedRowIsTrue` | internal/automation/flow.go:338-363 | in every interleaving, a finished run's row holds exactly what was performed, in order, which is what the rule means for the contact; its status says whether anything failed and anything succeeded |
| `Dispatch.StartsOnceExactly` | internal/handlers/jobs.go:230-243 | in any interleaving a rule starts at most once per event if and only if no event is claimed again after the pruning of its run's row |
| `Dispatch.PrunedRunStartsTwice` | internal/handlers/jobs.go:230-243 | a crash, the pruning of the row and a late redelivery start any rule twice |
| `CrmEvents.EventSurvives` | internal/crmevents/event.go:133-176 | an event, origin included, is the same after outbox row, envelope and decoding, but for its time and filled-in defaults |
| `Cascade.CausedAreDeeper` | internal/automation/flow.go:165-188 | every event a rule's action causes arrives naming the rule and one deeper |
| `Cascade.ReactionsAreDeeper` | internal/automation/engine.go:160-167 | all reactions to an event are one deeper, and there are none at the limit |
| `Cascade.Quiesce` | internal/automation/engine.go:64-86 | any number of rules reacting in any state comes to rest having handled exactly the first event and everything the handled events cause, the runs being exactly those of the rules that act on them; depth is at most 3 and no rule acts on its own event |
| `Cascade.AllRunsExactly` | internal/automation/engine.go:64-86 | a rule acted on an event if and only if the event was handled, fits its trigger, is not the rule's own and is less than 3 deep |
| `Cascade.ChangesAreTold` | internal/crmactions/contact_actions.go:65-72 | each change becomes one event of its own kind, about the same contact, in the rule's name |
| `Cascade.Handle` | internal/automation/engine.go:64-86 | one event: the reactions of all rules in order, and the runs of exactly the rules that act |
| `Cascade.React` | internal/automation/engine.go:149-195 | a rule runs exactly when nothing speaks against it: its own event, the depth limit, the state it finds |
| `Cascade.Act` | internal/crmactions/contact_actions.go:65-72 | each change publishes one event with the run's origin |
| `Cascade.MissingTags` | internal/crmactions/contact_actions.go:161-177 | the tags added are wanted, not carried in any case, each once, and afterwards every wanted tag is carried |
| `Cascade.AddTags` | internal/crmactions/contact_actions.go:36-80 | the contact carries its old tags and the missing ones, each wanted tag in some case, and exactly the added ones are published |
| `Cascade.RemoveTags` | internal/crmactions/contact_actions.go:92-136 | the tags are divided into kept and removed, in order and without loss, and exactly the removed ones are published |
| `Cascade.MatchingConserves` | internal/crmactions/contact_actions.go:103-113 | the two halves together are the tags, multiplicities included |
| `Like.EscapedCharIsLiteral` | internal/contactquery/compile.go:374-377 | an escaped character matches itself and nothing else |
| `Like.StartsWithIsLiteral` | internal/contactquery/compile.go:187-188 | `escapeLike(s)%` matches exactly the texts that start with s |
| `Like.ContainsIsLiteral` | internal/contactquery/compile.go:185-186 | `%escapeLike(s)%` matches exactly the texts in which s occurs |
| `Sql.GroupReads` | internal/contactquery/compile.go:139-147 | a parenthesised group reads as its parts linked by AND or OR, however many |
| `Sql.ExistsReads` | internal/deals/query.go:68-87 | an EXISTS fragment reads as a condition on some related row |
| `Sql.NegationReads` | internal/customfields/query.go:92-99 | NOT binds to the fragment after it |
| `ContactFilter.FilterValidator.ValidateNode` | internal/contactquery/filter.go:97-196 | a tree is accepted if and only if every leaf fits its field, nesting is bounded and the rules so far are within the limit |
| `FilterAcceptance.RuleAcceptedExactly` | internal/contactquery/filter.go:115-196 | a rule is accepted if and only if its field is known, its operator compiles for the field's type, and its value has the shape and size its operator works with |
| `FilterAcceptance.ValueAskedExactly` | internal/contactquery/filter.go:133-206 | an operator's value is left unchecked if and only if it makes no difference to the compiled fragment, for anybody and at any time |
| `FilterAcceptance.FitsExactly` | internal/contactquery/filter.go:97-131 | a tree fits if and only if every rule in it does and every group, joined by AND or OR, lies at most 3 levels deep |
| `FilterAcceptance.FilterAcceptedExactly` | internal/contactquery/filter.go:89-131 | validation accepts a filter if and only if it fits and has at most 50 rules |
| `FilterCompiler.TextArray` | internal/contactquery/compile.go:332-345 | the placeholders of an array are as many as the values shown as text |
| `FilterCompiler.TextFaithful` | internal/contactquery/compile.go:179-195 | a text rule's fragment is true exactly of the accepted cells, NULL included |
| `FilterCompiler.NumberFaithful` | internal/contactquery/compile.go:197-218 | the same for numbers |
| `FilterCompiler.DateFaithful` | internal/contactquery/compile.go:220-285 | the same for dates, relative and calendar operators included |
| `FilterCompiler.OptionFaithful` | internal/contactquery/compile.go:287-306 | the same for options |
| `FilterCompiler.TagsFaithful` | internal/contactquery/compile.go:308-345 | the same for tags |
| `FilterCompiler.BooleanFaithful` | internal/contactquery/compile.go:347-356 | the same for booleans |
| `FilterCompiler.UserFaithful` | internal/contactquery/compile.go:358-370 | the same for users, "me" included |
| `FilterCompiler.CustomValueFaithful` | internal/customfields/query.go:79-118 | a custom field's EXISTS or NOT EXISTS is true exactly of the accepted contacts |
| `FilterCompiler.DealColumnFaithful` | internal/deals/query.go:89-114 | the same for a column of the contact's open deals |
| `FilterCompiler.HasOpenDealFaithful` | internal/deals/query.go:31-36 | the same for having an open deal |
| `FilterCompiler.CompileNode` | internal/contactquery/compile.go:109-147 | parts and arguments are gathered child by child, the first error ends it |
| `FilterCompiler.CompileFaithful` | internal/contactquery/compile.go:109-147 | every node that compiles reads as one condition with as many placeholders as arguments and the node's meaning |
| `FilterCompiler.CompiledFilterMeansTheFilter` | internal/contactquery/compile.go:40-147 | the written text parses with one placeholder per argument, and bound left to right keeps exactly the contacts the tree accepts |
| `FilterCompiler.CompilesExactly` | internal/contactquery/compile.go:220-285 | a validated filter compiles if and only if the ends of its date ranges are dates |
| `FilterCompiler.ValidatesAndDoesNotCompile` | internal/contactquery/compile.go:220-285 | a range from "soon" to "later" on a date field validates and does not compile |
| `FilterCompiler.Apply` | internal/contactquery/compile.go:44-66 | applied to a query: rejected exactly when it does not validate or compile, otherwise exactly the selected contacts |
| `Conversations.WaitingStep` | internal/conversation/service.go:147-155 | one more event keeps the waiting time that of the first unanswered customer message |
| `Conversations.TouchKeepsFaithful` | internal/conversation/service.go:127-416 | every event leaves every column what the row's own history says |
| `Conversations.FoldKeepsFaithful` | internal/dedupe/merge.go:351-365 | so does a merge, resolving and moving the secondary's rows |
| `Conversations.StepKeepsOneActive` | internal/conversation/service.go:127-266 | every operation keeps at most one live conversation per contact |
| `Conversations.EveryRunIsSound` | internal/conversation/service.go:127-755 | in every run: one live conversation per contact; `resolved_at`, reason and resolver are those of the resolution, set exactly when resolved; Snoozed has its time; Pending has nobody waiting; first response and responder, last messages, assignee, message count and waiting time are what the row's history says |
| `Conversations.FromNothing` | internal/conversation/service.go:127-755 | so in every history that starts with no conversations |
| `ConversationPromises.EveryRunIsShown` | internal/conversation/service.go:118-755 | in every run each row has the status, handling, team and snooze its history comes to |
| `ConversationPromises.StepIsPromised` | internal/conversation/service.go:118-755 | each operation, said on the rows: which conversation it notes its event at, begins, or moves, and that everything else stays as it was |
| `ConversationPromises.InboundExactly` | internal/conversation/service.go:201-240 | with no live conversation, a message begins one if and only if none was resolved later than the window (a day when it is zero or less) before it; otherwise the latest such one is live afterwards, and no row is added |
| `Conversations.FirstResponseIsFinal` | internal/conversation/service.go:305-310 | the first response is written once |
| `Conversations.StepKeepsCount` | internal/conversation/service.go:657-706 | `reopened_count` stays the number of resolved-to-live transitions if and only if no stale reopening finds its row live |
| `Conversations.EveryRunCounts` | internal/conversation/service.go:201-240 | so in every run without one it is exact |
| `Conversations.StaleReopenOvercounts` | internal/conversation/service.go:657-706 | from nothing, at any time: message, resolution, merge, message, and a reopening that read the row before the merge leave a count of two after one reopening |
| `Conversations.StepKeepsDocumentedWait` | internal/dedupe/merge.go:351-365 | counting every resolution as an end of the wait holds through an operation if and only if it is not a merge of a waiting conversation |
| `Conversations.EveryQuietRunWaitsAsDocumented` | internal/models/conversation.go:131-133 | in runs without such a merge the column means what its comment says |
| `Conversations.FirstMessage` | internal/conversation/service.go:243-266 | a contact's first message creates the one conversation, open and waiting |
| `Conversations.MergeLeavesAWaitBehind` | internal/dedupe/merge.go:355-360 | merging that contact away leaves a resolved conversation waiting |
| `ConversationService.Service.TouchInbound` | internal/conversation/service.go:127-198 | a customer message continues, reopens or creates; the conversation returned is the contact's live one, and open |
| `ConversationService.Service.ReopenRecent` | internal/conversation/service.go:201-240 | the latest conversation resolved inside the window is reopened, a window of zero or less meaning a day |
| `ConversationService.Service.RecordOutbound` | internal/conversation/service.go:274-325 | only an agent opens a conversation, ends the wait and counts as first response |
| `ConversationService.Service.Resolve` | internal/conversation/service.go:328-383 | the live conversation is closed, its wait and snooze cleared |
| `ConversationService.Service.Snooze` | internal/conversation/service.go:386-416 | the live conversation is hidden until the given time |
| `ConversationService.Service.Assign` | internal/conversation/service.go:423-468 | assignee and team are set, and a human takes over |
| `ConversationService.Service.SetHandling` | internal/conversation/service.go:526-535 | the update over the contact's live rows touches at most one |
| `ConversationService.Service.SetStatus` | internal/conversation/service.go:637-755 | pending and open marks, nothing when already so; a pending mark keeps the snooze time |
| `ConversationService.Service.Reopen` | internal/conversation/service.go:657-706 | a live conversation of the contact read before the lock is returned instead; a second live row is refused |
| `ConversationService.Service.Wake` | internal/handlers/jobs.go:343-356 | a snoozed conversation is claimed by its status |
| `ConversationService.Service.Merge` | internal/dedupe/merge.go:355-365 | first every live row of the secondary is resolved, then all of them move |
| `ConversationService.Service.ResolveStale` | internal/conversation/service.go:602-628 | a sweep that nobody interrupts closes only stale conversations, at most 200, touches nothing else and leaves none unless the batch was full |
| `ConversationService.LateResolution` | internal/conversation/service.go:602-628 | after any run of operations between listing and turn, the resolution closes only what is stale if and only if the contact's live conversation has had no message since the cutoff in its whole history, is awake and of a status swept |
| `ConversationService.ListedAndWritten` | internal/conversation/service.go:602-628 | a conversation listed, still live at its turn and not put to sleep in between is rightly closed if and only if it has a status swept and nobody wrote from the cutoff on since it was listed |
| `ConversationService.SweepClosesAFreshConversation` | internal/conversation/service.go:606-626 | a conversation listed as stale in which the customer then writes is closed on that message |
| `ContactMerge.Service.Merge` | internal/dedupe/merge.go:282-461 | the refusals in order, and otherwise the secondary deleted and pointing at the primary, its identities moved |
| `ContactMerge.MergeExactly` | internal/dedupe/merge.go:282-485 | a merge happens exactly between two different contacts that are neither deleted nor merged; only the secondary's row changes, and whatever named it, its own number and BSUID included, names the primary unless a third contact has it |
| `ContactMerge.RestoresExactly` | internal/contacts/lifecycle.go:226-266 | a contact comes back exactly when the row read was not merged, or, on a message, was deleted neither by a person nor by a merge |
| `ContactMerge.UnmergedIsFound` | internal/contacts/lifecycle.go:226-252 | a contact that is not merged is found exactly while it is live, and may come back exactly when neither a person nor a merge deleted it |
| `ContactMerge.Service.AddIdentity` | internal/dedupe/merge.go:464-485 | an identity that is taken stays where it is, an empty one is not recorded |
| `ContactMerge.Service.Delete` | internal/contacts/lifecycle.go:384-409 | only a live contact is deleted, with its reason |
| `ContactMerge.Service.Restore` | internal/contacts/lifecycle.go:460-479 | refused exactly when the row read earlier was merged; otherwise the deletion of whatever the row has become is cleared |
| `ContactMerge.StepKeepsSound` | internal/contacts/lifecycle.go:250-266 | merged contacts stay deleted with reason merged, in a forest, without identities, if and only if a restore's read is fresh |
| `ContactMerge.RestoreRevivesAMergedContact` | internal/contacts/lifecycle.go:460-479 | from no contacts: a restore that read its row before a merge leaves a merged contact live |
| `ContactMerge.EveryRunIsSound` | internal/dedupe/merge.go:299-424 | so in every run of merges, deletions and fresh restores |
| `ContactMerge.FromNothing` | internal/dedupe/merge.go:299-424 | in particular from no contacts on |
| `ContactMerge.PointersAreFinal` | internal/dedupe/merge.go:310-315 | a merge pointer is written once |
| `ContactMerge.NoCycle` | internal/dedupe/merge.go:299-315 | no chain of pointers returns to where it started |
| `ContactMerge.Survivor` | internal/dedupe/merge.go:415-424 | every chain ends at a contact that is not merged |
| `ContactMerge.IdentityFollowsMerges` | internal/dedupe/merge.go:555-568 | an identity that once named a contact names that contact's survivor in every later state |
| `ContactMerge.MergedIsNeverFound` | internal/contacts/lifecycle.go:226-252 | a message for a merged contact finds the survivor exactly when the contact it was merged into is live, and otherwise neither finds nor restores it |
| `ContactMerge.SecondHopIsNotFollowed` | internal/contacts/lifecycle.go:226-252 | from no contacts: after two merges in a row a message for the first contact finds nobody, though its survivor is live |
| `ContactReferences.ReferencesAreConserved` | internal/entityrefs/contacts.go:77-94 | a repointed table has as many references as before, none to the merged contact |
| `ContactReferences.References.RepointContact` | internal/entityrefs/contacts.go:77-113 | every table is repointed and the counts per table are those of the rows that named the secondary |
| `ContactReferences.References.RepointAutomationState` | internal/entityrefs/contacts.go:123-147 | upserts then deletion come to the survivor's rows joined with the secondary's |
| `ContactReferences.RunsAreConserved` | internal/entityrefs/contacts.go:115-147 | run counts add up, once-per-contact stays used up, a cooldown is over exactly when it was for both |
| `ContactReferences.ValuesAreOverlaid` | internal/dedupe/merge.go:367-381 | the rows rewritten one by one and the rest deleted: the survivor has the secondary's field values overlaid by its own, and nothing stays behind |
| `ContactReferences.References.MoveValues` | internal/dedupe/merge.go:367-381 | the update of fields the primary lacks and the deletion of the others come to that overlay |
| `ContactReferences.MergeTags` | internal/dedupe/merge.go:537-552 | both lists' strings, each once, in order of first appearance |
| `ContactReferences.References.MoveWork` | internal/dedupe/merge.go:489-534 | the secondary's active work ends only when the primary has its own, then all of it moves |
| `ContactReferences.OneActiveIsKept` | internal/dedupe/merge.go:489-534 | at most one active handoff or session per contact is kept, and the survivor has one exactly when either had |
| `OggCrc.MakeTable` | internal/calling/recorder.go:13-25 | each entry is its index shifted through the register |
| `OggCrc.TableStep` | internal/calling/recorder.go:264-270 | one table step is eight bits fed in one by one |
| `OggCrc.OggCrc32` | internal/calling/recorder.go:264-270 | the table-driven checksum is the bit-by-bit CRC, and every index is below 256 |
| `OggCrc.OneIsThePolynomial` | internal/calling/recorder.go:13-25 | the checksum of the one byte 1 is 0x04C11DB7 |
| `OggPages.ChecksumChecks` | internal/calling/recorder.go:200-203 | a decoder that zeroes the checksum field and recomputes finds what is stored |
| `OggPages.LacingSum` | internal/calling/recorder.go:162-171 | lacing values add up to the length, also for multiples of 255 |
| `OggPages.SplitPage` | internal/calling/audio.go:226-256 | a page's segment table cuts out exactly its non-empty packets |
| `OggPages.SplitSegments` | internal/calling/audio.go:226-256 | the segment loop, trailing packet included |
| `OggPages.ReadOpusPackets` | internal/calling/audio.go:176-259 | the reader's loop with its three errors, the first two pages skipped |
| `OggPages.ReadFile` | internal/calling/audio.go:176-259 | a file of fitting pages reads as the packets of all but its two headers |
| `OggPages.ReadLeftOver` | internal/calling/audio.go:196-224 | what is left behind the last page: under 27 bytes it is ignored, without the signature it is an error, and so is a page cut short, in its segment table or in its payload |
| `CallRecorder.Recorder.constructor` | internal/calling/recorder.go:54-73 | a new recorder has written the two header pages |
| `CallRecorder.Recorder.WritePacket` | internal/calling/recorder.go:76-95 | until a write fails the file is the full pages so far and the buffer the rest; nothing is taken after the stop |
| `CallRecorder.Recorder.FlushPage` | internal/calling/recorder.go:157-217 | one page with the next number and granule; a failed write keeps the buffer and is remembered |
| `CallRecorder.Recorder.Stop` | internal/calling/recorder.go:98-114 | without a write error the file is the recording of exactly the packets taken |
| `CallRecorder.BuildPage` | internal/calling/recorder.go:182-203 | header, segment table, payload and checksum as the format lays them out |
| `CallRecorder.ReadsBack` | internal/calling/recorder.go:157-217 | whatever fits the segment counts reads back: all packets in order, the empty ones dropped |
| `CallRecorder.RoundTrip` | internal/calling/audio.go:176-259 | packets of 1 to 1274 bytes, whatever their number, read back as they were |
| `CallRecorder.SmallPacketsFit` | internal/calling/recorder.go:46-50 | 48 packets of at most 1274 bytes never need more than 255 lacing values |
| `CallRecorder.LargestPacketsOverflow` | internal/calling/recorder.go:182-198 | a recording that opens with 48 packets of 1275 bytes stores 32 for 288 segments and never reads back, whatever the bytes and whatever follows |
| `CallRecorder.ReadsBackExactly` | internal/calling/recorder.go:157-217 | a recording whose first overflowing page shows it reads back if and only if every page fits |
| `CallRecorder.OnePageReadsBackExactly` | internal/calling/recorder.go:157-217 | a recording of up to 48 non-empty packets, without further condition, reads back if and only if its page fits |
| `OggOverflow.ReadPage` | internal/calling/audio.go:196-224 | what the reader sees of any page: as many segments as the count byte says, the rest of the table taken for payload |
| `OggOverflow.FirstByteShows` | internal/calling/audio.go:226-256 | a page shows its overflow when its first payload byte is not the first segment left out of the count |
| `OggOverflow.LastPageMisreads` | internal/calling/audio.go:176-259 | on the last page an overflow always loses packets: what follows is too short to hold the rest |
| `CallRecorder.StreamIsWellFormed` | internal/calling/recorder.go:98-217 | pages numbered from 0, last granule 960 per packet, first page marked, last one marked exactly when not full |
| `OggLayout.PageIsLaidOut` | internal/calling/recorder.go:182-203 | every page: OggS, version 0 at byte 4, flags at byte 5, the granule in bytes 6 to 13, stream 0, the page number, the count, then table and payload, numbers least significant byte first |
| `OggLayout.HeadersSay` | internal/calling/recorder.go:126-155 | the two header packets, field by field |
| `OggLayout.FileIsWellFormed` | internal/calling/recorder.go:98-217 | the bytes of a whole recording: the two headers alone on their pages, pages numbered without gap, 960 samples for every packet so far, beginning and end marked |
| `TransferSignals.StepKeepsSound` | internal/calling/transfer.go:797-815 | every critical section keeps each unused channel in at most one place |
| `TransferSignals.SignalledOnce` | internal/calling/transfer.go:1076-1092 | each channel gets one send or close at most, never blocks, the IVR sees one outcome, one connect per waiting period, and the session is cleaned up once |
| `TransferSignals.NeverStranded` | internal/calling/ivr.go:465-476 | a blocked IVR's channel is in the session, with a terminator, or has its message |
| `TransferSignals.StepKeepsOwned` | internal/calling/transfer.go:797-815 | every step keeps channels and outcomes with their own transfers if and only if it does not make the next channel while a terminator is between settling and taking, nor settle before the channel's transfer is started |
| `TransferSignals.UntimelyMisleads` | internal/calling/ivr.go:465-476 | every other step does mislead: its take and its send put an outcome of another transfer into the channel the IVR waits on |
| `TransferSignals.TimelyExactly` | internal/calling/transfer.go:797-815 | from a new call on, a timely run never misleads the IVR, and any untimely next step can, two steps later |
| `TransferSignals.OutcomeOfItsTransfer` | internal/calling/ivr.go:465-476 | so in every run that keeps to this, each outcome sent is about the transfer the IVR waits for |
| `TransferSignals.OutcomeIsTrue` | internal/calling/transfer.go:797-815 | in every run a channel carries completed, unanswered or abandoned only about a transfer that was ended, timed out or abandoned while it was the latest, and is closed only by a cleanup |
| `TransferSignals.LateTerminatorAnswersForTheNext` | internal/calling/ivr.go:465-476 | a run that does not: the late terminator of the first transfer wakes the IVR on the second with the wrong outcome, while that one is still waiting |
| `AudioBridge.StepKeepsSound` | internal/calling/bridge.go:77-145 | every step keeps the wait group equal to the live goroutines and at most one leg under way |
| `AudioBridge.OneCallerLeg` | internal/calling/bridge.go:126-145 | one leg at most is put in the slot, one caller forwarder ever runs, `Start` returns after all have exited |
| `AudioBridge.AttachAfterStop` | internal/calling/bridge.go:219-225 | after `Stop` the slot gets at most the legs already under way, and only from those attaches; the attached mark changes at most by a `Start` about to set it |
| `AudioBridge.NothingAfterReturn` | internal/calling/bridge.go:77-117 | nothing is forwarded once `Start` has returned |
| `AudioBridge.LateLegIsTaken` | internal/calling/bridge.go:93-107 | a late leg can be taken by the reserved goroutine unless the bridge is stopped |
| `AudioBridge.ReadyLegsAreLaunched` | internal/calling/bridge.go:77-117 | once `Start` waits, the agent's leg was launched exactly when its track was ready, the caller's exactly when its was, and the slot is listened to exactly when it was not |
| `AudioBridge.AttachIsAccepted` | internal/calling/bridge.go:127-145 | an attach gets its leg on the way unless the bridge was stopped or had its caller from the start |
| `Ranks.RankBetween` | internal/deals/rank.go:18-50 | the loop ends and computes the key letter by letter |
| `Ranks.BetweenNeighbours` | internal/deals/rank.go:16-50 | the key is usable, above the lower neighbour, below the upper one when they are in order, at most one letter longer |
| `Ranks.TrailingFirstLetter` | internal/deals/rank.go:11-14 | why no key may end in 'a' |
| `Board.Service.ReadLastRank` | internal/deals/service.go:430-443 | the greatest key of the column |
| `Board.Service.Create` | internal/deals/service.go:192-202 | a new card's key comes after the column's greatest |
| `Board.Service.Move` | internal/deals/service.go:283-320 | the moved card's key comes from the neighbours named, and only its row is written |
| `Board.EveryRunKeepsKeyed` | internal/deals/rank.go:5-9 | every run of creations, moves and deletions keeps keys over a to z not ending in 'a' |
| `Board.DroppedBetween` | internal/deals/service.go:391-411 | between adjacent cards the card lands exactly there, level with none, no other row written |
| `Board.NeighboursCount` | internal/deals/service.go:391-428 | which neighbours count: other cards that are still there; the key is above the lower and, in order, below the upper one; one that does not count might as well not be named; with none the key is a first card's |
| `Board.LandsIffAdjacent` | internal/deals/service.go:391-428 | when the upper neighbour is another card of the column, or none, the card lands there if and only if the neighbours named are adjacent |
| `Board.LandsExactly` | internal/deals/service.go:391-428 | whatever the neighbours, also ones of other columns or out of order: it lands there if and only if every other card of the column is clear of the place |
| `Board.GoesToTheBottom` | internal/deals/service.go:401-409 | a new card, or one moved without neighbours, lies below the whole column |
| `Board.AdjacentMoveKeepsDistinct` | internal/deals/service.go:391-411 | with adjacent neighbours keys stay distinct |
| `Board.StepKeepsDistinct` | internal/deals/service.go:391-428 | keys stay distinct within columns if and only if a moved card's key is that of no other card of its column; creations and deletions always keep them |
| `Board.EveryRunKeepsDistinct` | internal/deals/service.go:192-320 | so in every run whose moves get fresh keys |
| `Board.AdjacentKeyIsFresh` | internal/deals/service.go:391-411 | a key is fresh when the neighbours named are adjacent, or none is named |
| `Board.NotAdjacentCanCollide` | internal/deals/service.go:391-428 | without, two cards can get the same key |
| `Assignment.Assigner.FilterAvailable` | internal/assignment/assigner.go:124-154 | members neither excluded nor unavailable, each once |
| `Assignment.Assigner.AssignRoundRobin` | internal/assignment/assigner.go:68-93 | the longest unassigned candidate is picked and stamped |
| `Assignment.Assigner.AssignLoadBalanced` | internal/assignment/assigner.go:97-122 | a least loaded candidate is picked, none only when there is none |
| `Assignment.Assigner.AssignToTeam` | internal/assignment/assigner.go:37-54 | the pick is available, not excluded and the strategy's: waiting longest and stamped, or least loaded; none only when nobody is left or the team assigns by hand |
| `Assignment.RoundRobinIsFair` | internal/assignment/assigner.go:66-93 | n consecutive picks among n available agents are n different agents |
| `Assignment.NeverAssignedFirst` | internal/assignment/assigner.go:75-88 | the pick was never assigned if any candidate was not, and otherwise its last assignment is the earliest; the first in member order on a tie |
| `Assignment.LoadsStayEven` | internal/assignment/assigner.go:95-122 | items given one by one to the least loaded, counted anew each time, keep loads within any bound of each other, one included |
| `Assignment.Assigner.Rotate` | internal/calling/transfer.go:865-995 | every offer is the strategy's pick among the untried, by the availability and loads that attempt finds; nobody is asked twice; unless one accepts, the transfer stops waiting or the deadline passes everybody available at the last attempt is asked; then, if it still waits, exactly the untried agents available and online get the broadcast |
| `Assignment.Assigner.OfferInTurn` | internal/calling/transfer.go:866-957 | the loop of offers stops at an acceptance, when the transfer no longer waits, when nobody eligible is left, or at the deadline, and says which |

## Left out

- WaitsLast: a leg reads the clock once, when it begins; the source reads it at the wait (internal/automation/flow.go:145), which is no earlier. Lengths are whole seconds that are not negative, so a length too long for 63 bits of nanoseconds is not modelled; the check allows 30 days.
- WaitsLast: about runs in which no event is claimed again once its run's row is pruned, as in `AtMostOnce`; two runs of one key have no common clock.
- NeverAssignedFirst: ties go to the first in member order, where the query leaves the choice to the database.
- DriveRefines: says which skips may be missing from a stopped run as "only skips, at the end"; `StoppedHistory` says exactly which.
- AtMostOnce: does not model a rule edited while its runs wait, because the step ids then no longer identify steps; `Run.Resume` models one such resume.
- AtMostOnce: any row that does not wait may be pruned at any time, because ages are not modelled; the condition exact for starts (`StartsOnceExactly`) asks less than the one used for steps and waits.
- AtMostOnce: says nothing about progress after a crash, because the source leaves a crashed run to an operator.
- Quiesce: covers the contact actions only, because conversation and deal actions publish events without their origin and so are not bounded by the depth.
- Quiesce: handles one event after another, because a rule's reaction in any state is an argument.
- Survivor: the secondary's phone number is already normalised.
- LoadsStayEven: items are assigned and none is closed meanwhile; in `AssignLoadBalanced` the counts are an argument, as every caller brings its own query.
- ReadsBackExactly: an overflow before the last page that does not show in its own page could in principle be undone by page headers hidden in the audio; whether such a recording reads back is left open.
- ContactMerge.Service.Merge: a merge is one step; a deletion takes no lock (internal/contacts/lifecycle.go:384-409), so one may commit inside a merge and its update of the deleted row then touches nothing.
- ContactMerge.Service.Delete: a deletion is one step, and ends no work in flight.
- ResolveStale: one uninterrupted sweep; `LateResolution` says what an interrupted one may close.
- Rotate: the timers are a bound on the number of offers; who answers, who is online, and what each attempt finds (availability, loads, whether the transfer still waits) are arguments.
- RoundTrip: write errors are modelled, but a file after one is not claimed to be readable.
- Texts of errors, outputs of actions, the "until" time in a wait's output, JSON encoding of stored results.
- Segment fields, and the viewer's scope and organisation condition, two fixed texts put beside the compiled filter with AND.
- Type errors inside the database, date and number parsing, floating-point deal values, collation other than bytes for board keys.
- The concurrent read of the dispatcher's rule list; each call is one step.
- Publication of events and audit rows beside the columns, except where the outbox and the cascade are the subject.
- WebRTC, SDP, audio files, hold music and the rewriting of RTP sequence numbers in the bridge.
- Deal status, stage history and closing dates; task, notification and duplicate-candidate rows of a merge.
- Chatbot sessions ended by resolving a conversation, and the chat account a conversation came through.
- HTTP handlers, permissions, migrations, analytics and the frontend.
