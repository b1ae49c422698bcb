# Psychevo: verified models of the Workbench, desktop bridge and release tooling

A Dafny 4.11 model of the parts of Psychevo where several steps share state:

- the Gateway event journal behind the Workbench feed: bounded rings, two action maps that evict on their own, and reads through old snapshots (`Sequences`, `RecencyMap`, `EventRing`, `GatewayEvents`, `JournalModel`, `JournalRings`, `JournalActions`, `JournalAgreement`, `JournalBounds`, `JournalLifecycles`, `JournalSteer`, `JournalRouting`, `JournalReads`, `JournalRecords`, `Journal`);
- the desktop Gateway transport across its awaits (`TransportModel`, `TransportHistory`, `Transport`);
- the composer's readiness coordinator and overlapping `startNewThread` calls over one view (`CoordinatorModel`, `CoordinatorHistory`, `Coordinator`, `ViewSwitchModel`, `ViewSwitchHistory`, `ViewSwitch`);
- rehydration after reconnects (`RecoveryModel`, `RecoveryHistory`, `Recovery`) and Extension App leases (`AppLeaseModel`, `AppLeaseHistory`, `AppLease`);
- the team member text format (`Text`, `TeamText`, `TeamFields`, `TeamLine`, `TeamPrint`, `TeamRoundTrip`, `TeamParser`);
- the release asset manifest, from the worker pool that writes it to the wheel backend that checks it (`StringOrder`, `ReleaseManifest`, `ReleaseAgreement`, `HashPoolModel`, `HashPool`);
- merging Channel Extension release fragments (`FragmentModel`, `FragmentAgreement`, `FragmentMerge`, `FragmentFold`, `FragmentResults`, `Fragments`);
- the highlighting cache (`HighlightModel`, `Highlight`).

Asynchronous code is a transition system: every `await` ends a step, and a result about a run quantifies over every sequence of enabled steps. Beside each such model stands a class with the source's own fields, whose methods are the pieces of code between awaits; each is proved to make exactly one step of the model and to keep its invariant. Code that loops over data is a method with loops, proved equal to a function, about which the results are proved.

Four findings, each with its exact condition:

- an opening event with an empty action id is remembered but never recorded, so the journal's two action maps can come to disagree, at that event or a later one: exactly which events do it is `JournalAgreement.AppendBreaksAgreementIff`, and exactly which bounds rule it out is `JournalBounds.EveryRunAgreesIff` (the Workbench's do not);
- `waitToSubmit` lets calls of another epoch pass an open readiness at once (`CoordinatorModel.AdmittedExactly`, `CoordinatorModel.TwoCallsPass`); `submitTurn` is safe because an open readiness always belongs to the view's epoch (`ViewSwitchModel.ViewAdmitsAtMostOne`);
- the "Opening" indicator of an Extension App stays on when an effect overtakes an open (`AppLeaseModel.OpeningShownExactly`, `AppLeaseModel.OpeningCanStick`);
- the highlighting cache mixes up requests if one registered language name extends another past a NUL (`HighlightModel.InvisibleIff`).

`dafny verify dfyconfig.toml` checks the whole project.

## Model

| member | source | states |
|---|---|---|
| `JournalBounds.OpenActionsAreRemembered` | apps/workbench/src/gateway-event-feed.ts:85-232 | After every run of appends whose opening events name their action, each retained lifecycle that is still open is remembered in `actionThreads` with the same number and thread, although both maps evict and delete on their own; this holds for all such runs if and only if no more lifecycles are retained than actions remembered |
| `JournalBounds.EveryRunAgreesIff` | apps/workbench/src/gateway-event-feed.ts:85-232 | The same for all runs at all, empty action ids included: the maps agree after every run if and only if strictly fewer lifecycles are retained than actions remembered |
| `JournalBounds.WorkbenchAgreement` | apps/workbench/src/gateway-event-feed.ts:33-35 | At the Workbench's bounds, which are equal, every run that names its actions agrees and some run that does not name one disagrees |
| `JournalAgreement.AppendBreaksAgreementIff` | apps/workbench/src/gateway-event-feed.ts:153-210 | From any reached journal whose maps agree, the next event breaks the agreement if and only if it opens an action of a known thread that is not yet remembered, with the remembered map full and its oldest action named and still retained after the event is recorded |
| `JournalAgreement.RunAgreesIff` | apps/workbench/src/gateway-event-feed.ts:153-232 | The maps agree all along a run if and only if none of its events pushes out a retained action in that way |
| `JournalActions.MapsStayTidy` | apps/workbench/src/gateway-event-feed.ts:153-232 | The invariant behind it, for all runs and bounds: both maps have distinct keys in ascending order of numbers, every retained lifecycle of a remembered action is the event that opened it, and whatever action was remembered after a retained one is itself retained |
| `JournalBounds.PushOutCounts` | apps/workbench/src/gateway-event-feed.ts:173-183 | Recency closure and counting: an event can push out a retained action only if at least as many lifecycles fit as remembered actions, and strictly more when every action is named |
| `JournalBounds.FloodBreaksAgreement` | apps/workbench/src/gateway-event-feed.ts:173-219 | With room for more lifecycles than remembered actions, a flood of distinct requests breaks the agreement |
| `JournalBounds.UnnamedBreaksAgreement` | apps/workbench/src/gateway-event-feed.ts:173-209 | With no more room for remembered actions than for lifecycles, one request without an id after a full flood of named ones breaks the agreement |
| `JournalBounds.UnnamedBreaksLater` | apps/workbench/src/gateway-event-feed.ts:173-209 | A concrete run: with two actions remembered, a request without an id leaves the maps agreeing and the next, named request breaks the agreement |
| `JournalLifecycles.LifecyclesAreRecent` | apps/workbench/src/gateway-event-feed.ts:186-220 | After any appends `actionLifecycles` is exactly the most recently touched distinct actions in recency order, each with the last event that touched it, where a touch is a thread-resolved action event or a completed turn that settles a remembered action |
| `RecencyMap.TouchAllIsRecent` | apps/workbench/src/gateway-event-feed.ts:212-220 | Deleting, reinserting and evicting the oldest, use after use, leaves exactly the `bound` most recently used distinct keys of the whole log with their last values |
| `RecencyMap.LastUseMeans` | apps/workbench/src/gateway-event-feed.ts:212-220 | The reference list holds an entry if and only if some use recorded it and no later use has its key |
| `RecencyMap.EvictOldest` | apps/workbench/src/gateway-event-feed.ts:215-219 | The loop that deletes the first key while the map is over its bound leaves the newest `bound` entries |
| `JournalRings.RingsAreWindows` | apps/workbench/src/gateway-event-feed.ts:85-112 | After any appends the global ring is the end of the full history, each thread's ring is exactly the last `perThread` records of that thread among the retained ones, in order, and a thread has a ring exactly when it has such a record |
| `JournalRings.RingsFitGlobal` | apps/workbench/src/gateway-event-feed.ts:91-112 | All per-thread rings together never hold more records than the global ring, which never exceeds its bound |
| `JournalRings.RevisionsAreLastTeamEvents` | apps/workbench/src/gateway-event-feed.ts:92-112 | Every recorded team revision belongs to a thread that still has a ring and is the number of that thread's last team event in the whole history; a thread without one has no team event left in the global ring |
| `JournalRings.SnapshotReadsShrink` | apps/workbench/src/gateway-event-feed.ts:64-68 | Re-reading an old snapshot after any further appends to the shared journal gives a suffix of what the same read gave before, globally and per thread, and nothing newer than the snapshot |
| `JournalLifecycles.LifecycleReadsShrink` | apps/workbench/src/gateway-event-feed.ts:122-134 | Re-reading a thread's action lifecycles through an old snapshot yields only lifecycles the first read yielded |
| `JournalLifecycles.ReadSelects` | apps/workbench/src/gateway-event-feed.ts:122-134 | A lifecycle read returns exactly the retained lifecycles of the thread inside the requested window |
| `JournalLifecycles.SortKeepsMembers` | apps/workbench/src/gateway-event-feed.ts:130-134 | Sorting the lifecycles of a read neither loses nor adds one |
| `JournalLifecycles.SortOrders` | apps/workbench/src/gateway-event-feed.ts:130-134 | A lifecycle read comes out in order of numbers |
| `JournalRouting.NamedIff` | apps/workbench/src/gateway-event-feed.ts:314-339 | The thread an event names is the first non-empty one among the thread ids it carries: its own, or for a completed turn its own, its turn's and those of the committed entries in order |
| `JournalRouting.RememberedIff` | apps/workbench/src/gateway-event-feed.ts:153-184 | Before any event of any run, the remembered actions are exactly the openings still held: sent to a thread, since then neither closed, opened again nor settled by a completed turn, and never with as many later openings still standing as the bound has room for |
| `JournalRouting.RouteMeans` | apps/workbench/src/gateway-event-feed.ts:85-87 | In every run, an event goes to a thread if and only if it names it, or names none and is about an action whose held opening went there |
| `JournalReads.ThreadViewIff` | apps/workbench/src/gateway-event-feed.ts:245-252 | The full view of a thread at a snapshot is exactly the events numbered in it that went to that thread |
| `JournalReads.NamedIsRead` | apps/workbench/src/gateway-event-feed.ts:100-120 | An event that names a thread is the last item that thread reads right after it is appended |
| `JournalReads.SteerMeans` | apps/workbench/src/gateway-event-feed.ts:292-312 | `confirmedSteerTurnId` is decided by the last event in the snapshot that starts, queues or completes a turn and names the thread: that turn if it starts it, none otherwise, and the snapshot's turn once that event has left the ring |
| `JournalReads.NoTurnToSteer` | apps/workbench/src/gateway-event-feed.ts:308-311 | Without any such event in the snapshot the answer is the snapshot's own turn |
| `JournalReads.SteerAfterTurn` | apps/workbench/src/gateway-event-feed.ts:292-312 | Right after a turn event that names the thread, the answer is the turn it starts, or none if it queues or completes one |
| `JournalReads.TeamRevisionMeans` | apps/workbench/src/gateway-event-feed.ts:107-138 | A thread's revision is the number of the last event sent to it that starts or completes a turn, changes activity or changes an agent's entry, clamped to the snapshot; it can read 0 instead only once that event has left the global ring |
| `JournalReads.NoTeamEventNoRevision` | apps/workbench/src/gateway-event-feed.ts:136-138 | A thread that no such event was sent to has revision 0 |
| `JournalRecords.EventRecords` | apps/workbench/src/gateway-event-feed.ts:186-232 | What an event writes into `actionLifecycles`: itself under the action it is about, if that has an id and the event a thread; and for a completed turn, itself under exactly the held openings it settles, each with the opening's thread |
| `JournalRecords.LifecycleMeans` | apps/workbench/src/gateway-event-feed.ts:186-220 | In every run a retained lifecycle is the last thing any event wrote under its action, and while the map has room every such last record is retained |
| `JournalRecords.LastActionIsRead` | apps/workbench/src/gateway-event-feed.ts:122-134 | Right after an action event with an id and a thread, that thread's lifecycles since the previous number are exactly that event |
| `JournalSteer.SteerAgreesWithHistory` | apps/workbench/src/gateway-event-feed.ts:292-312 | `confirmedSteerTurnId` over the bounded ring equals the same query over the thread's full history (`JournalReads.ThreadViewIff` says which events that is) when that history's last turn event is retained, and otherwise is the snapshot's turn id |
| `Journal.GatewayEventJournal.ActionLifecyclesForThread` | apps/workbench/src/gateway-event-feed.ts:122-134 | The lifecycle read of a snapshot is the model's read of the run so far |
| `Journal.GatewayEventJournal.TeamLifecycleRevision` | apps/workbench/src/gateway-event-feed.ts:136-138 | The team revision of a snapshot is the model's, clamped to the snapshot |
| `JournalSteer.RetainedViewIsSuffix` | apps/workbench/src/gateway-event-feed.ts:245-252 | A thread's retained view is a suffix of its full view at the same snapshot |
| `JournalSteer.NeverRevivesOldTurn` | apps/workbench/src/gateway-event-feed.ts:292-312 | If a thread's retained view has a queue or completion event, `confirmedSteerTurnId` over the journal can only name the turn of a retained start event numbered after it |
| `JournalModel.LatestSeqCounts` | apps/workbench/src/gateway-event-feed.ts:85-89 | The latest number is the number of events appended |
| `JournalModel.LogNumbered` | apps/workbench/src/gateway-event-feed.ts:85-89 | Events are numbered from one in the order they were appended |
| `EventRing.Ring.Push` | apps/workbench/src/gateway-event-feed.ts:385-395 | The wrapped buffer holds the old contents and the new value, without the oldest when it was full, and returns that one |
| `EventRing.Ring.RemoveOldest` | apps/workbench/src/gateway-event-feed.ts:397-403 | Drops the oldest value if and only if it carries the given number |
| `EventRing.Ring.ValuesThrough` | apps/workbench/src/gateway-event-feed.ts:405-412 | Reads the values up to a number, oldest first, across the wrap |
| `Journal.GatewayEventJournal.Append` | apps/workbench/src/gateway-event-feed.ts:85-112 | In place, over maps of ring objects: the journal's fields stay equal to the model's run over the whole history, and the number returned is the length of that history |
| `Journal.GatewayEventJournal.Advance` | apps/workbench/src/gateway-event-feed.ts:85-112 | One append changes the five indexes exactly as the model's append |
| `Journal.GatewayEventJournal.IndexAction` | apps/workbench/src/gateway-event-feed.ts:86-89 | The thread is resolved before the action maps change, lifecycles before threads |
| `Journal.GatewayEventJournal.Record` | apps/workbench/src/gateway-event-feed.ts:90-110 | Evicts from the global ring, trims or drops the evicted thread's ring and revision, then pushes to the event's own thread |
| `Journal.GatewayEventJournal.UpdateActionThreads` | apps/workbench/src/gateway-event-feed.ts:153-184 | Opening events are remembered under the bound, closing events forget the action, completed turns forget every action they settle |
| `Journal.GatewayEventJournal.UpdateActionLifecycle` | apps/workbench/src/gateway-event-feed.ts:186-210 | Records the event as the latest of its action, or of every action a completed turn settles, in map order |
| `Journal.GatewayEventJournal.RememberActionLifecycle` | apps/workbench/src/gateway-event-feed.ts:212-220 | One bounded, most-recent-last touch of the lifecycle map |
| `Journal.GatewayEventJournal.ForgetSettled` | apps/workbench/src/gateway-event-feed.ts:162-169 | Deletes from the map during iteration exactly the actions the turn settles |
| `Journal.GatewayEventJournal.EventsThrough` | apps/workbench/src/gateway-event-feed.ts:114-116 | The global read of a snapshot is the model's read of the run so far |
| `Journal.GatewayEventJournal.EventsForThread` | apps/workbench/src/gateway-event-feed.ts:118-120 | The per-thread read of a snapshot is the model's read of the run so far |
| `TransportModel.EveryGenerationReleasedOnce` | apps/desktop/src/bridge.ts:49-130 | In every interleaving of connect, replies, close, sends, late failures, native events and dispose, each returned generation is either the installed one or was released exactly once (disconnected here, or reported lost); nothing else is ever disconnected or reported; at most one connect is in flight; `connected` holds exactly when a generation is installed |
| `TransportModel.InstalledNeverOverwritten` | apps/desktop/src/bridge.ts:64-74 | No step of any run replaces an installed generation by another |
| `TransportModel.LossReportedAtMostOnce` | apps/desktop/src/bridge.ts:107-130 | Handlers hear of a lost generation at most once and never of one released before, however many sends on it fail later |
| `TransportModel.DisposeIsFinal` | apps/desktop/src/bridge.ts:132-140 | After `dispose` no generation is ever installed and no message or disconnect handler runs |
| `TransportHistory.ConnectStartsIff` | apps/desktop/src/bridge.ts:49-63 | A `connect` starts an attempt if and only if the transport is not disposed, holds no generation and has no attempt pending |
| `TransportHistory.AttemptAwaitsReply` | apps/desktop/src/bridge.ts:64-74 | A started attempt can be answered with any new generation until it is answered or fails |
| `TransportHistory.ReplyInstalledIff` | apps/desktop/src/bridge.ts:64-74 | In every run a reply is installed, and the transport connected, if and only if no `close` or `dispose` step lies between the `connect` that started the attempt and the reply; otherwise its generation is disconnected, once |
| `TransportHistory.InstalledUntilTaken` | apps/desktop/src/bridge.ts:84-130 | An installed generation stays until a close, a dispose, a failed send on it or its own native disconnect |
| `TransportHistory.FateOfGeneration` | apps/desktop/src/bridge.ts:84-188 | The first of these takes it away: a close or dispose disconnects it once and reports nothing, a failed send or native disconnect reports it once and disconnects nothing, and that stays so |
| `TransportHistory.AttemptFinishes` | apps/desktop/src/bridge.ts:64-82 | An attempt that failed, was released or was installed can finish, and finishing clears it, so that another may start |
| `TransportHistory.SendsInFlight` | apps/desktop/src/bridge.ts:107-130 | For every generation, the sends in flight are those made while it was installed less those that ended, well or badly |
| `TransportHistory.DeliveredExactly` | apps/desktop/src/bridge.ts:164-173 | The messages delivered are exactly those for this connection whose generation was installed when they came, in order |
| `TransportModel.StepKeepsInv` | apps/desktop/src/bridge.ts:49-191 | Every step keeps the accounting of generations and the shape of the pending connect |
| `Transport.DesktopGatewayTransport.Connect` | apps/desktop/src/bridge.ts:49-82 | Refuses when disposed, joins the pending attempt, otherwise starts one under a new epoch |
| `Transport.DesktopGatewayTransport.ConnectReturns` | apps/desktop/src/bridge.ts:64-74 | A reply is installed if and only if the transport is not disposed and its attempt's epoch is still current, and otherwise disconnected once; an installed generation is never replaced |
| `Transport.DesktopGatewayTransport.Finally` | apps/desktop/src/bridge.ts:75-80 | Clears the pending attempt only if it is still this one |
| `Transport.DesktopGatewayTransport.Close` | apps/desktop/src/bridge.ts:84-95 | Starts a new epoch, leaves nothing installed, and the generation that was has been disconnected exactly once |
| `Transport.DesktopGatewayTransport.Send` | apps/desktop/src/bridge.ts:107-118 | Sends on the installed generation exactly when not disposed and connected, and fails otherwise |
| `Transport.DesktopGatewayTransport.SendFails` | apps/desktop/src/bridge.ts:119-129 | A failed send drops the generation and tells the handlers only while that generation is installed, and so at most once |
| `Transport.DesktopGatewayTransport.OnDisconnectEvent` | apps/desktop/src/bridge.ts:177-188 | A native disconnect counts only for this connection and the installed generation |
| `Transport.DesktopGatewayTransport.OnMessageEvent` | apps/desktop/src/bridge.ts:164-173 | A native message is delivered exactly for this connection and the installed generation |
| `Transport.DesktopGatewayTransport.Dispose` | apps/desktop/src/bridge.ts:132-140 | Disposes once, closing the connection |
| `CoordinatorModel.ReadinessSettlesOnce` | apps/workbench/src/composer-session-coordinator.ts:35-127 | In every interleaving each readiness settles at most once, the only open one is the active one, and the submission slot is taken exactly while one call is suspended, naming its readiness |
| `CoordinatorModel.AtMostOneSubmissionAdmitted` | apps/workbench/src/composer-session-coordinator.ts:103-117 | Of all `waitToSubmit` calls made in a readiness's own epoch while it is open at most one returns true, and only if that readiness settled true |
| `CoordinatorModel.AdmittedExactly` | apps/workbench/src/composer-session-coordinator.ts:103-117 | Counting all calls made while a readiness is open: those in another epoch with current input are admitted at once, every one of them, and besides them at most one |
| `CoordinatorModel.TwoCallsPass` | apps/workbench/src/composer-session-coordinator.ts:104-107 | A concrete run in which two calls in another epoch both pass an open readiness |
| `CoordinatorHistory.OpenUntilDecided` | apps/workbench/src/composer-session-coordinator.ts:35-57 | A readiness is open from the step that issued its token until the first later step that settles that token, cancels or begins another |
| `CoordinatorHistory.FirstDecisionSettles` | apps/workbench/src/composer-session-coordinator.ts:75-126 | In every run that first step decides it for good: a settlement of the token settles it to the value given, a cancellation or a new readiness to false |
| `CoordinatorHistory.WaitsWhileOpen` | apps/workbench/src/composer-session-coordinator.ts:103-117 | A call that suspended in its epoch with the slot free stays suspended while nothing decides the readiness |
| `CoordinatorHistory.WaitingSubmissionAnswered` | apps/workbench/src/composer-session-coordinator.ts:103-126 | Once the readiness is decided that call can resume, and answers true if and only if it was settled true and the input is current |
| `CoordinatorModel.StaleTokensChangeNothing` | apps/workbench/src/composer-session-coordinator.ts:119-126 | Once a readiness has settled its outcome is final, and settling its token again changes nothing, however much happens in between |
| `CoordinatorModel.StepKeepsInv` | apps/workbench/src/composer-session-coordinator.ts:35-127 | Every step keeps the three invariants behind these results |
| `Coordinator.ComposerSessionCoordinator.BeginReadiness` | apps/workbench/src/composer-session-coordinator.ts:35-57 | Cancels what is pending and opens a readiness under a fresh token |
| `Coordinator.ComposerSessionCoordinator.CancelPending` | apps/workbench/src/composer-session-coordinator.ts:75-84 | Settles an open readiness false, its outcome recorded, and forgets it |
| `Coordinator.ComposerSessionCoordinator.SettleReadiness` | apps/workbench/src/composer-session-coordinator.ts:119-126 | If the active readiness is open and has this id and epoch its outcome is exactly the value given; otherwise nothing changes |
| `Coordinator.ComposerSessionCoordinator.WaitToSubmit` | apps/workbench/src/composer-session-coordinator.ts:103-112 | Suspends on the open readiness of its epoch, or refuses while another call is suspended; it answers true at once exactly when its input is current and no readiness of its epoch is open |
| `Coordinator.ComposerSessionCoordinator.ResumeWait` | apps/workbench/src/composer-session-coordinator.ts:113-117 | A resumed call frees the slot, returns true exactly when its readiness settled true and its input is current, and is then the only call of that epoch the readiness admitted |
| `ViewSwitchModel.WritesAreCurrent` | apps/workbench/src/app-actions.ts:226-257 | In every interleaving of overlapping calls, a step after an await that changes the view belongs to the call that owns the current epoch, every other call has an older one, and the new view is the old one with exactly the fields that call writes there set to its own reply |
| `ViewSwitchModel.ViewAdmitsAtMostOne` | apps/workbench/src/app-actions.ts:360-365 | In every run in which submissions carry the view's epoch, as `submitTurn` does, at most one of all submissions made while a readiness is open is admitted, and only if it settled true |
| `ViewSwitchModel.OpenReadinessIsCurrent` | apps/workbench/src/App.tsx:797-804 | An open readiness always belongs to the epoch the view is in |
| `ViewSwitchModel.ComposerFollows` | apps/workbench/src/app-actions.ts:177-257 | Every step of the view makes the coordinator take its own steps, so results about the coordinator's runs hold in every run of the view |
| `ViewSwitchModel.SupersededNeverReady` | apps/workbench/src/app-actions.ts:177-256 | A call superseded before it applied its reply never applies it, and its readiness token has settled false for good |
| `ViewSwitchModel.LastCallDecidesView` | apps/workbench/src/app-actions.ts:235-257 | Once the call owning the current epoch has applied its reply the view shows exactly that reply, whatever superseded calls do; until then it shows that call's own optimistic draft |
| `ViewSwitchHistory.ReplyReachesView` | apps/workbench/src/app-actions.ts:226-257 | However other calls and submissions interleave, if a reply comes while its call is the current one and no view switch follows, then once the call has adopted its scope the view shows exactly that reply |
| `ViewSwitchHistory.LoneCallSucceeds` | apps/workbench/src/app-actions.ts:177-257 | From every reached view an undisturbed `startNewThread` runs through and settles its own readiness true, or false if the reply carries a problem |
| `ViewSwitchHistory.SwitchResets` | apps/workbench/src/App.tsx:797-813 | From every reached view a switch takes a new epoch, clears the draft workspace and leaves the rest, but for the optimistic draft that `startNewThread` shows |
| `ViewSwitchHistory.CallsEndOnce` | apps/workbench/src/app-actions.ts:219-257 | A call ends once: after its open, its parsing or its adoption failed, or its scope was adopted, no step of any run continues it |
| `ViewSwitchModel.StepKeepsInv` | apps/workbench/src/app-actions.ts:166-268 | Every step keeps epochs and tokens of calls apart, the view owned by the current call, and the coordinator's invariants |
| `ViewSwitch.AppActions.BeginExplicitViewSwitch` | apps/workbench/src/App.tsx:797-813 | Cancels pending readiness, moves to a new epoch and clears the draft workspace |
| `ViewSwitch.AppActions.StartNewThread` | apps/workbench/src/app-actions.ts:177-215 | Up to the first await: switches the view, shows the optimistic draft and opens a readiness under the new epoch |
| `ViewSwitch.AppActions.DraftOpenFailed` | apps/workbench/src/app-actions.ts:219-225 | A failed open settles its own token false, if it is still open |
| `ViewSwitch.AppActions.DraftOpened` | apps/workbench/src/app-actions.ts:226-234 | A reply is carried on only while its epoch is current |
| `ViewSwitch.AppActions.BranchRefreshed` | apps/workbench/src/app-actions.ts:235-238 | Writes the draft workspace only while its epoch is current |
| `ViewSwitch.AppActions.ScopeAdopted` | apps/workbench/src/app-actions.ts:239-257 | Only while its epoch is current: afterwards the whole view is the call's reply and the token's outcome is true, or false if the reply carries a problem |
| `ViewSwitch.AppActions.SubmitTurn` | apps/workbench/src/app-actions.ts:360-365 | Nothing is admitted at once while any readiness is open |
| `RecoveryModel.OneRehydrationPerGeneration` | apps/workbench/src/app-effects.ts:365-375 | With nondecreasing client generations, at most one rehydration of a generation is in flight in every run |
| `RecoveryModel.RecoveredNeverDrops` | apps/workbench/src/app-effects.ts:386-409 | `lastRecoveredGeneration` never decreases |
| `RecoveryModel.RisesOnlyBySuccess` | apps/workbench/src/app-effects.ts:375-411 | After initialization it rises above 1 only when a rehydration of exactly the client's current generation has succeeded while the client is still connected and the effect alive |
| `RecoveryHistory.RecoveryStory` | apps/workbench/src/app-effects.ts:305-411 | Whenever the last recovered generation has risen above 1 since some initialized moment, the run holds that whole recovery: a rehydration started when the client connected at it, three checks after its three awaits that found the same view epoch and generation (none without a scope), and its settling as a success with the client still connected at it |
| `RecoveryHistory.StageHasChecks` | apps/workbench/src/app-effects.ts:305-363 | A rehydration that has not failed has passed exactly as many checks as its stage says, all at the view epoch and generation it started with, three for a success with a scope |
| `RecoveryHistory.RecoveryProgress` | apps/workbench/src/app-effects.ts:305-363 | A rehydration started for a newly connected generation takes one stage per await while nothing moves under it |
| `RecoveryHistory.RecoveryCompletes` | apps/workbench/src/app-effects.ts:324-395 | After three of them it can settle, and with the client still connected the generation is recovered |
| `RecoveryHistory.FirstConnectionNoted` | apps/workbench/src/app-effects.ts:399-411 | Before initialization, or at the first generation, a connection counts as recovered at once |
| `RecoveryHistory.DisposeIsFinal` | apps/workbench/src/app-effects.ts:305-413 | Once the effect is gone nothing is recovered or started any more, and a rehydration that goes on comes out stale |
| `RecoveryModel.FinishedStays` | apps/workbench/src/app-effects.ts:365-396 | The result of a finished rehydration never changes |
| `RecoveryModel.StepKeepsInv` | apps/workbench/src/app-effects.ts:305-412 | Every step keeps the invariant behind these results |
| `Recovery.GatewayRecovery.RecoverGeneration` | apps/workbench/src/app-effects.ts:365-375 | Starts a rehydration only when initialized, not already recovering that generation and ahead of the last recovered one |
| `Recovery.GatewayRecovery.OnConnectionState` | apps/workbench/src/app-effects.ts:399-413 | A connection at a new generation is recovered, the first one is only noted |
| `Recovery.GatewayRecovery.RehydrateContinues` | apps/workbench/src/app-effects.ts:324-347 | After each await a rehydration goes stale if the effect died, the view moved or the generation changed |
| `Recovery.GatewayRecovery.RehydrateSettles` | apps/workbench/src/app-effects.ts:375-395 | Clears the slot if it is its own, and records success only while connected at that generation |
| `AppLeaseModel.EveryLeaseClosedOnce` | apps/workbench/src/capabilities-page.tsx:3684-3741 | In every interleaving of open, close and effect cleanup, each granted lease is either the held one with no close request, or has had exactly one |
| `AppLeaseModel.HeldNeverOverwritten` | apps/workbench/src/capabilities-page.tsx:3706-3741 | No step replaces a held lease by another |
| `AppLeaseHistory.GrantHeldIff` | apps/workbench/src/capabilities-page.tsx:3706-3740 | An open can be answered with any new lease until it is answered; the lease is then held and the App shown if and only if no other open, close, effect run or cleanup came since, and otherwise its close is requested at once |
| `AppLeaseHistory.HeldUntilGiven` | apps/workbench/src/capabilities-page.tsx:3684-3705 | A held lease is kept until a close or cleanup, which requests its close exactly once |
| `AppLeaseHistory.ShownExactly` | apps/workbench/src/capabilities-page.tsx:3684-3740 | In every run the App is shown if and only if some grant was held and no close came since; a cleanup leaves it shown |
| `AppLeaseModel.OpeningShownExactly` | apps/workbench/src/capabilities-page.tsx:3706-3754 | While only offered buttons are pressed, the opening indicator is on if and only if an open of the current generation is awaited, or at some earlier step the effect ran or cleaned up while one was |
| `AppLeaseModel.OpeningCanStick` | apps/workbench/src/capabilities-page.tsx:3736-3740 | A concrete run in which an effect cleanup overtakes an open: the lease is closed, nothing is awaited, and the indicator stays on |
| `AppLeaseModel.StepKeepsInv` | apps/workbench/src/capabilities-page.tsx:3684-3741 | Every step keeps the accounting of leases |
| `AppLease.ExtensionAppSurface.CleanUp` | apps/workbench/src/capabilities-page.tsx:3684-3694 | The cleanup moves the generation on and leaves no lease held; the one that was has had exactly one close request |
| `AppLease.ExtensionAppSurface.CloseApp` | apps/workbench/src/capabilities-page.tsx:3697-3705 | Moves the generation on, hides the App and leaves no lease held; the one that was has had exactly one close request |
| `AppLease.ExtensionAppSurface.OpenApp` | apps/workbench/src/capabilities-page.tsx:3706-3718 | Starts an open under a new generation and shows the indicator |
| `AppLease.ExtensionAppSurface.OpenGranted` | apps/workbench/src/capabilities-page.tsx:3719-3740 | A granted lease is held if and only if its open's generation is current, and otherwise has had exactly one close request; a held lease is never replaced |
| `AppLease.ExtensionAppSurface.OpenFailed` | apps/workbench/src/capabilities-page.tsx:3736-3740 | A failed open clears the indicator only if its generation is current |
| `TeamRoundTrip.PrintParseRoundTrip` | apps/workbench/src/capabilities-page.tsx:3079-3155 | Parsing the printed text of a list of team members gives the list back if and only if every member is well formed |
| `TeamRoundTrip.ParsePrintParse` | apps/workbench/src/capabilities-page.tsx:3079-3155 | For every text, parsing, printing and parsing again gives what the first parse gave |
| `TeamRoundTrip.LineRoundTrip` | apps/workbench/src/capabilities-page.tsx:3084-3151 | One printed member, with its named fields and sorted runtime options, reads back as itself |
| `TeamPrint.PrintedLine` | apps/workbench/src/capabilities-page.tsx:3137-3155 | The line of any member: its head, then role, description, turns, runtime and revision, then its options by ascending name, each only if it has a value |
| `TeamText.ParseGivesWellFormed` | apps/workbench/src/capabilities-page.tsx:3079-3135 | Everything the parser returns is well formed, for every text |
| `TeamLine.LineMeans` | apps/workbench/src/capabilities-page.tsx:3079-3135 | What any line says, through a relation on its characters: cut at its bars and at the first `=` or `:` of each part, blanks dropped. It gives one member if it has an id and an agent, else none; the last named field of each kind wins, options go by name, and a positional role, description or turns stands in where no named one is given |
| `TeamLine.TextHasReading` | apps/workbench/src/capabilities-page.tsx:3079-3115 | Every line has such a reading, so the former holds of all of them |
| `TeamLine.ParseConcat` | apps/workbench/src/capabilities-page.tsx:3079-3083 | The members of two texts joined by a line break are those of the first and then those of the second, for all texts |
| `TeamLine.PositionalLine` | apps/workbench/src/capabilities-page.tsx:3117-3132 | A line of an id, an agent and positional texts gives exactly the member with the first as role, the second as description and the third read as turns, or as many of these as are written |
| `TeamLine.NamedWins` | apps/workbench/src/capabilities-page.tsx:3089-3132 | The last non-empty named role, description or readable number of turns stands whatever positional fields the line has, before or after it |
| `TeamFields.LoopGathers` | apps/workbench/src/capabilities-page.tsx:3089-3115 | The field loop gathers what the fields say, for every list of fields |
| `TeamParser.ParseTeamMembersText` | apps/workbench/src/capabilities-page.tsx:3079-3135 | The parsing loops, with their locals and option map, compute the function the round trips are about |
| `TeamParser.GatherFields` | apps/workbench/src/capabilities-page.tsx:3089-3115 | The field loop, last writer wins, named fields apart from positional ones |
| `TeamParser.BuildMember` | apps/workbench/src/capabilities-page.tsx:3085-3132 | The head split at its first colon, positional fields standing in for missing named ones |
| `TeamParser.ReadMember` | apps/workbench/src/capabilities-page.tsx:3084-3133 | One line: split at its bars, the fields gathered, the member built and kept if it is named |
| `TeamParser.ReadAll` | apps/workbench/src/capabilities-page.tsx:3080-3134 | Blank lines and unnamed members are skipped, the rest keep their order |
| `TeamParser.DecimalCodecLawful` | apps/workbench/src/capabilities-page.tsx:3106-3108 | Positive decimal naturals meet the reading law the format relies on |
| `TeamParser.DecimalRoundTrip` | apps/workbench/src/capabilities-page.tsx:3106-3108 | Every natural's decimal text is all digits and has its value |
| `ReleaseAgreement.ProducedAcceptedIff` | python/binary_build_backend.py:277-345 | The wheel backend accepts the plugin's manifest of a tree if and only if the tree has no link among the shipped names, no nested file named like the manifest, no backslash in a shipped name and no two large shipped files with the same size and digest |
| `ReleaseAgreement.AcceptedSelectsTheTree` | python/binary_build_backend.py:290-345 | Any accepted manifest, from wherever it comes, selects exactly the releasable files of the tree in order, each a regular file listed once with its size and digest, no two large ones alike |
| `ReleaseAgreement.FoundIsShipped` | apps/release-assets-vite-plugin.ts:21-46 | The backend finds exactly the files the plugin ships if and only if there is no link and no nested manifest in the way |
| `ReleaseAgreement.NameMeans` | python/binary_build_backend.py:332-337 | The last component of a path is the one text without a slash that is the path or ends it after a slash |
| `ReleaseAgreement.FoundMeans` | python/binary_build_backend.py:332-338 | The backend finds exactly the files that are not the manifest, do not end in a slash and the manifest's name, and are not source maps |
| `ReleaseAgreement.NestedManifestRefused` | python/binary_build_backend.py:332-345 | A regular file below a directory that is named like the manifest makes the backend refuse the plugin's manifest |
| `ReleaseAgreement.CheckEntriesIff` | python/binary_build_backend.py:290-331 | The entry loop accepts exactly the lists of safe, present, matching entries without a repeated path or a repeated large payload |
| `ReleaseAgreement.ConsumeIff` | python/binary_build_backend.py:290-345 | The whole check accepts exactly such lists whose paths are the files found |
| `ReleaseAgreement.AcceptedIff` | python/binary_build_backend.py:290-345 | Over whole paths: a list, from wherever it comes, is accepted if and only if it describes every file but manifests and source maps, each once, regular, with its size and digest and no backslash in its path, and no large payload twice |
| `ReleaseAgreement.UnsafeReported` | python/binary_build_backend.py:305-314 | The first faulty entry is reported as an unsafe path if and only if its path is empty or absolute, has a backslash or a `..` component, repeats an earlier one or is a source map |
| `ReleaseManifest.SelectReleaseAssets` | python/binary_build_backend.py:277-345 | The loop over `selected`, `seen` and `digests` computes the checked function, error cases included |
| `StringOrder.SortedIsListing` | apps/release-assets-vite-plugin.ts:44-46 | A sorted list without repetition is determined by its elements, so both sides order paths alike |
| `StringOrder.LeqMeans` | apps/release-assets-vite-plugin.ts:44-46 | Paths are compared by their first difference, a prefix first |
| `HashPoolModel.PoolMatchesSequential` | apps/release-assets-vite-plugin.ts:47-65 | For any number of workers and any interleaving of their awaits, once all are done the file array is the sequential map over the sorted paths, with no hole, and no path left the root |
| `HashPoolModel.ClaimsAreExclusive` | apps/release-assets-vite-plugin.ts:49-53 | At every moment of every run an index is held by exactly one worker from its claim until its slot is written, and by none before or after |
| `HashPoolModel.WriteFindsEmptySlot` | apps/release-assets-vite-plugin.ts:57-60 | Every write fills an empty slot with the asset of that index and touches no other |
| `HashPoolModel.EscapingNeverWritten` | apps/release-assets-vite-plugin.ts:54-60 | In every run the slot of a path that leaves the root stays empty, and once it is claimed some worker has failed on it |
| `HashPoolModel.EscapesMeans` | apps/release-assets-vite-plugin.ts:54-56 | A path leaves the root if and only if it starts with a slash or `..` stands between its slashes |
| `HashPoolModel.StepKeepsInv` | apps/release-assets-vite-plugin.ts:48-61 | Every step keeps slots, claims and workers in agreement |
| `HashPool.PoolManifestAcceptedIff` | apps/release-assets-vite-plugin.ts:40-66 | End to end: whatever the interleaving, the backend accepts the array the workers filled if and only if the tree is releasable |
| `HashPool.NoWorkerFails` | apps/release-assets-vite-plugin.ts:54-56 | On a walked tree no worker ever refuses a path |
| `HashPool.ManifestPool.ClaimNext` | apps/release-assets-vite-plugin.ts:50-56 | Takes the next index, refuses an escaping path, or stops |
| `HashPool.ManifestPool.SizeRead` | apps/release-assets-vite-plugin.ts:57-58 | Keeps the size read before the digest |
| `HashPool.ManifestPool.DigestRead` | apps/release-assets-vite-plugin.ts:59-60 | Writes the asset in place and goes round again |
| `FragmentResults.MergeIff` | scripts/package_extension_channels.py:118-179 | The merge succeeds if and only if the set of fragments is acceptable: exactly the Channel ids, one version and schema each, no target with two artifacts, three targets covering the three families, every artifact a genuine archive found once, no archive name used twice, no channel archive unnamed |
| `FragmentResults.OrderIrrelevant` | scripts/package_extension_channels.py:118-169 | Reading the same fragments in another order succeeds or fails alike, and gives the same merged descriptors and archives |
| `FragmentResults.CountNeverDiffers` | scripts/package_extension_channels.py:170-172 | The archive-count check can never fail |
| `FragmentResults.FamiliesOneToOne` | scripts/package_extension_channels.py:139-144 | On success each Extension's three targets map one-to-one onto the three families |
| `FragmentResults.ReleasedNamesDiffer` | scripts/package_extension_channels.py:161-163 | On success no two artifacts of the release, in one Extension or across them, name the same archive |
| `FragmentResults.MergedDescribes` | scripts/package_extension_channels.py:164-169 | On success there is one descriptor per Channel Extension, with the common version and exactly the artifacts its fragments offer |
| `FragmentResults.MergedReferences` | scripts/package_extension_channels.py:151-163 | On success the referenced archives are exactly the named ones, each the only file of that name |
| `FragmentResults.StrayIff` | scripts/package_extension_channels.py:173-179 | A channel archive is reported as unreferenced exactly when no fragment names it |
| `FragmentMerge.MergeGroupIff` | scripts/package_extension_channels.py:127-163 | One Extension merges if and only if its fragments are acceptable and its archive names are not taken by an earlier one |
| `FragmentMerge.CollectedIff` | scripts/package_extension_channels.py:128-138 | The artifact loop succeeds exactly on coherent fragments and then holds what they offer, each target once |
| `FragmentAgreement.ReferenceIff` | scripts/package_extension_channels.py:145-163 | The archive loop succeeds exactly on genuine archives under new, pairwise different names |
| `FragmentAgreement.InspectIff` | scripts/package_extension_channels.py:145-160 | An artifact passes if and only if its URL is https, names a `.tar.gz`, and exactly one file of that name exists, of its size and digest |
| `FragmentModel.TargetFamilyMeans` | scripts/package_extension_channels.py:196-203 | A target is Linux if `-linux-` occurs in it, else macOS if it ends in `-apple-darwin`, else Windows if `-windows-` occurs in it, else of no known family |
| `FragmentModel.IsChannelArchiveIff` | scripts/package_extension_channels.py:173-175 | A name is a channel archive if and only if the glob matches it, with some text for the star |
| `Fragments.MergeFragments` | scripts/package_extension_channels.py:114-179 | The loops over the dictionaries compute the merge, and succeed exactly on an empty output directory and an acceptable set of fragments |
| `Fragments.GroupFragments` | scripts/package_extension_channels.py:118-121 | Groups fragments by id, in the order the ids are first seen |
| `Fragments.CollectArtifacts` | scripts/package_extension_channels.py:128-138 | The loop over one Extension's descriptors, with its three errors |
| `Fragments.ReferenceArchives` | scripts/package_extension_channels.py:145-163 | The loop over one Extension's artifacts, with its five errors |
| `HighlightModel.CacheIsInvisible` | apps/workbench/src/highlight.ts:65-90 | For every history of calls `highlightToHtml` returns what an uncached deterministic highlighter would, when no registered language extends another one past a NUL |
| `HighlightModel.InvisibleIff` | apps/workbench/src/highlight.ts:66-75 | The cache is invisible whatever the highlighter does if and only if no registered language extends another one past a NUL |
| `HighlightModel.CollisionShows` | apps/workbench/src/highlight.ts:69-75 | Two such names share a key, and one request is answered with the other's markup |
| `HighlightModel.CacheIsRecentUses` | apps/workbench/src/highlight.ts:69-86 | The cache is exactly the 160 most recently used distinct successful requests with their markup |
| `HighlightModel.KeyInjective` | apps/workbench/src/highlight.ts:69-69 | For registered languages none of which extends another past a NUL, the key determines language and code |
| `HighlightModel.NulFreeSeparable` | apps/workbench/src/highlight.ts:69-69 | Language names without NUL are enough |
| `HighlightModel.EscapeMeans` | apps/workbench/src/highlight.ts:92-102 | Escaped text has no angle bracket and no ampersand outside the three entities, and shows as exactly the text that was escaped |
| `Highlight.Highlighter.HighlightToHtml` | apps/workbench/src/highlight.ts:65-90 | In place: every call answers as the model does after the same history; with an unknown language that is the escaped code, with a known one, for language names as above, the highlighter's markup, or the escaped code where it throws; and the 160 most recent successful requests are cached |
| `Highlight.Highlighter.Lookup` | apps/workbench/src/highlight.ts:65-90 | Hit, miss with eviction, or fallback, as the body branches |

## Left out

- JournalLifecycles.LifecycleReadsShrink: the lifecycles of an old read are a subset of the earlier ones, not a suffix, because a later event of the same action takes the earlier one's place.
- ViewSwitchModel.LastCallDecidesView: counts the writes of `startNewThread` only; a target chosen afterwards in the same epoch (apps/workbench/src/App.tsx:1083-1101) rewrites the runtime context and is not a view write here.
- ViewSwitchModel.SupersededNeverReady: safety only; a reply that fails to parse, or a scope that cannot be adopted, leaves a readiness open until the next switch, in the model as in the source.
- TeamParser.DecimalCodecLawful: covers decimal digit texts; JavaScript's `Number` also reads signs, fractions, exponents and other bases.
- RecoveryModel.OneRehydrationPerGeneration: the client's generations are taken to be nondecreasing, which is how the connection counts them (packages/client/src/gateway-connection.ts:168-174).
- TransportModel.EveryGenerationReleasedOnce: the native side is taken never to return the same generation twice, and native listeners to be registered; registration and its partial failure are not modelled.
- AppLeaseModel.EveryLeaseClosedOnce: leases are taken to be fresh, and the client and scope captured by a close to be present.
- TeamRoundTrip.PrintParseRoundTrip: `maxTurns` goes through any reader and writer for which a written number reads back; positive decimal naturals are proved to be such, JavaScript's other number texts are not modelled.
- ReleaseAgreement.ProducedAcceptedIff: files are keyed by path with components other than empty, `.` and `..`, SHA-256 is any function, links to directories are not modelled, and paths are ordered by character rather than by UTF-16 code unit.
- FragmentResults.MergeIff: a URL is given by its scheme and file name and an archive name matches itself only, so URL parsing, glob characters in names and links between archives are not modelled; nor is a fragment without an id, version or artifacts.
- HighlightModel.CacheIsInvisible: the highlighter is deterministic and its language registry does not change.
- The point-in-time meaning of `teamLifecycleRevision` on an old snapshot: it is only a clamp.
- Feed subscriptions and listeners, React rendering and effects other than the two modelled, dialogs and panels.
- The live transcript reduction, thread sessions, the Gateway client and the workspace application.
- Writing the merged release (descriptors, archive copies, checksums), tar, zip and wheel writing, subprocesses and all file access: directory contents are parameters.
- `package_current_target`, `languageForPath`, CI scripts, budgets and fixtures: easy members.
