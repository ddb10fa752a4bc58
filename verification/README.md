# Verified models of biod's AuthStack and of avtest_label_detect

This project models two components of the ChromiumOS platform repository in Dafny and proves
what they keep, promise and mean, for every run and every input.

**The AuthStack session machine of biod.** `AuthStackManagerWrapper` exports enroll and
authentication sessions on D-Bus. It keeps two slots, each a closure that ends the session, the
bus name of the client that owns it and an exported object. Clients, the bus, the fingerprint
manager and destruction all change the slots, in different orders. Behind it,
`CrosFpAuthStackManager` drives the sensor through eight states and hands out the closures.

- `AuthStackWrapper`, `AuthStackLedger`, `AuthStackHistory`, `AuthStackTrace`: the wrapper for
  any manager at all. The manager's answers are part of the events.
- `AuthStackContract`: the wrapper over a manager that keeps the contract of its interface. It is
  then a machine with three states: idle, enrolling for an owner, authenticating for an owner.
- `CrosFpManager`, `AuthStackSystem`, `AuthStackOverlap`, `AuthStackSensor`, `AuthStackAccounts`,
  `AuthStackUsers`: the wrapper and the fingerprint manager together, with closures that carry
  weak pointers and callbacks that reach back into the wrapper; what its states promise, what its
  replies mean, and whose enrolment and whose match it is.
- `AuthStackSignals`: every reply and signal that the clients on the bus hear of every step, from
  the happening and the state before it, and over whole runs.
- `CrosFpRecords`, `CrosFpSessionManager`: the records behind the credential calls, in memory and
  on disk.
- `AuthStackTemplates`: the system, the records and the sensor's memory together, with the answers
  about records and templates no longer free but those that the disk and the sensor give.
- `AuthStackDaemon`: both objects as classes whose methods update fields statement by statement.
  Each method is proved to do what the system model says, and a run of the two objects is a run
  of the model, so every theorem about runs holds of the objects.

**The label detector.** `avtest_label_detect` prints labels for what a machine can do.

- `RuleText`, `TableLookup`: the table lookup by board name, as text and as buffers with NULs
  written into them.
- `Resolutions`, `V4l2`, `Vaapi`, `DeviceSearch`, `MachineInts`: the loops over drivers with
  fixed answers.
- `VideoLabels`, `LabelOffers`: which labels a machine gets and which imply which; what they say in
  the answers of its drivers; and the labels of machines that offer one thing only, which tell
  apart every codec, depth, entrypoint and size.

**Where the code does less than it says.** Each of these is proved with a run or an input that
shows it, and with the exact condition under which the promise does hold.

- One session at a time: an enrolment is accepted while the wrapper still holds an auth session
  (`OneAtATimeIffNoOverlap`, `ContractIffNoOverlap`). Ending one of the two then leaves the other
  slot with a closure that does nothing (`OverlapStrandsTheEnrolment`, `InSyncIff`).
- A locked manager processes no more commands: a session with a sensor action pending brings it
  back, unless the sensor was switched off and nothing is on its way from it (`LockedForGoodIff`,
  `LockedMidway`).
- An active state waits for the sensor: an enrolment that fails to set the sensor mode loses the
  wait for the finger (`ActiveIsWaitingIff`, `FingerUpIsLost`), and the next auth session never
  hears from the sensor (`LostFingerUpIsDeaf`). Sending the templates again during a session
  switches the sensor off (`ActiveIsServedIff`, `DeletionSilencesSensor`).
- The pending match event is there iff the manager is in AuthDone: only one direction always
  holds (`AlwaysPendingIff`, `AbandonedMatchLingers`).
- A login keeps other users out: not if its user was loaded already, nor if another user is tied to
  the manager (`LoginKeepsOthersOutIff`, `LoginDoesNotKeepOut`).
- What a session yields is its user's: not if another user is loaded while it is in hand, nor if a
  template is migrated for a user other than the loaded one (`InOwnHandsIff`, `MatchChangesHands`,
  `CredentialChangesHands`, `MigrationChangesHands`). A finished enrolment survives the loading of
  another user only if the sensor does not forget its templates when told to, a failure that the
  code ignores, and that user has no valid records (`NewIsOwnIff`, `TemplateChangesHands`).
- The sensor holds the loaded user's records in order unless the manager is locked: not if a new
  template is abandoned, nor if the sensor does not forget its templates (`AlignedIff`,
  `TemplateAbandoned`).
- An authentication names the record that matched: not if records move up behind a match before it
  is used (`FaithfulIff`, `MatchNamesAnother`).
- Rule lines that are too long are skipped: what is left of such a line behind the last full
  buffer is obeyed as a rule (`OverlongRuleSkippedIff`, `OverlongRuleIsObeyed`).
- The board name loses its last character if the line does not end in a newline
  (`BoardNameIsMeantIff`, `UnendedFileLosesCharacter`).
- The largest resolution is the largest only if one candidate dominates (`TestIsExactIff`,
  `OrderIrrelevantIff`, `SplitDriverMisses4k`).
- The scan for the variable bitrate mode runs for ever if the menu's maximum is the largest
  integer and the mode is missing (`ScanDivergesIff`, `EndlessScan`).
- A 4k label is given for a device of either interface: in a build for both, video devices are not
  looked at; and for AV1 and HEVC, which the comments promise for VAAPI alone, a build for V4L2
  gives it (`PromiseKeptIff`). A 4k VP9 encoder need not be a VP9 encoder in a build for V4L2 alone
  (`EncodeLabelsChainIff`).

What is assumed of the surroundings: a closure runner is true while it holds a closure, runs it
at most once, runs a held closure when it is assigned over or destroyed, and gives it up
unrun on release; end closures do not call back into the wrapper; D-Bus senders have names;
destroying a D-Bus object unregisters it. Answers of the sensor, the stores, the kernel, libva and
the regular expression matcher are parameters.

## Model

| member | source | states |
|---|---|---|
| AuthStackWrapper.StepSlot | biod/auth_stack_manager_wrapper.cc:109-357 | whatever order a handler touches closure, object and owner in, a slot is filled as a whole with the new closure and its caller, emptied as a whole, or left alone, and exactly when |
| AuthStackWrapper.StepCoherent | biod/auth_stack_manager_wrapper.cc:109-219 | every handler keeps: closure held iff object exported iff owner non-empty, in both slots |
| AuthStackWrapper.RunCoherent | biod/auth_stack_manager_wrapper.cc:109-219 | the same at every quiescent point of every run and for any manager, so no object is finalized that is not there |
| AuthStackLedger.ClosuresConserved | biod/auth_stack_manager_wrapper.h:80-97 | every closure ever issued went to one slot and is held there, was run exactly once, or was released exactly once, the last only for auth and only because a later auth start succeeded |
| AuthStackLedger.DestroySettlesEverything | biod/auth_stack_manager_wrapper.h:80-97 | destruction after any run empties both slots, unregisters both objects and frees the manager last of all, when every closure ever issued has been run or released exactly once |
| AuthStackHistory.StepOwner | biod/auth_stack_manager_wrapper.cc:121-161 | which events make a name the owner of a slot, which remove it, and that no other event does either |
| AuthStackHistory.OwnerIffHistory | biod/auth_stack_manager_wrapper.cc:121-161 | after any run a name owns a slot iff it started the session and since then was not dropped from the bus and the session was not ended, finished, failed or handed over |
| AuthStackHistory.ActiveSessionHasLiveOwner | biod/auth_stack_manager_wrapper.cc:121-161 | an active session always has an owner, and it is the one that history names |
| AuthStackHistory.ForwardedCallsDoNotMatter | biod/auth_stack_manager_wrapper.cc:221-384 | removing all nonce, credential, legacy-record, login and logout events from any run changes neither slot and nothing that is said about sessions |
| AuthStackTrace.TraceFollowsGrammar | biod/auth_stack_manager_wrapper.cc:163-219 | the whole output of any run, for any manager, follows a grammar: register and unregister alternate per slot, signals come only in between, a final enroll signal and a failure signal are the last of their session, and an end call is answered only when the object is gone |
| AuthStackTrace.FailureReportSignals | biod/auth_stack_manager_wrapper.cc:197-219 | a failure report emits one SessionFailed per active session and none when idle, and leaves no closure |
| AuthStackContract.StartEnrollMode | biod/auth_stack_manager_wrapper.cc:233-241 | after an accepted enroll start the manager is in enroll mode iff the slot held no closure that the assignment would run |
| AuthStackContract.StartAuthMode | biod/auth_stack_manager_wrapper.cc:271-284 | after an accepted auth start, first or repeated, the manager is in auth mode |
| AuthStackContract.WithoutReleaseRestartEndsItself | biod/auth_stack_manager_wrapper.cc:279-284 | without the release an auth restart would end the session just started, with its closure still held |
| AuthStackContract.SlotsMatchMode | biod/auth_stack_manager.h:47-66 | under the contract the slots are never both held, and the held slot is the mode of the manager, in every run |
| AuthStackContract.ContractIffFits | biod/auth_stack_manager.h:28-66 | a manager keeps the contract in a run iff each start it accepts fits the slots the wrapper holds |
| AuthStackContract.StepUtters | biod/auth_stack_manager_wrapper.cc:121-384 | what each handler says on the bus, with one session or two going on |
| AuthStackContract.StepReacts | biod/auth_stack_manager_wrapper.cc:109-357 | each handler is one step of the three-state session machine, with the same replies and signals in the same order |
| AuthStackContract.WrapperRefinesSessionMachine | biod/auth_stack_manager_wrapper.cc:109-357 | under the contract every run of the six-field wrapper has the session and the visible output of the three-state machine |
| AuthStackSystem.DeliverCloses | biod/cros_fp_auth_stack_manager.cc:526-542 | an event that ends sessions empties the slots it ends, and kills the manager's session iff one of the closures still has its weak pointer |
| AuthStackSystem.StepEffect | biod/cros_fp_auth_stack_manager.cc:156-802 | in every state in order, what a call, bus event or sensor event does to both slots, the manager and the accounts, with callbacks and weak pointers worked out |
| AuthStackSystem.StepInOrder | biod/cros_fp_auth_stack_manager.cc:156-802 | every step of wrapper and manager together keeps the invariant that ties slots, closures, manager state, sensor action, pending request and pending match |
| AuthStackSystem.RunInOrder | biod/cros_fp_auth_stack_manager.cc:156-802 | that invariant holds after every run |
| AuthStackSystem.LoadUserState | biod/cros_fp_auth_stack_manager.cc:582-622 | loading a user changes nothing but the user, the tie to the logged-in user, the sensor, which it may switch off, and the state, which it may lock if it fails |
| AuthStackSystem.LoadUserResult | biod/cros_fp_auth_stack_manager.cc:582-622 | when loading a user succeeds, locks the manager, switches the sensor off and changes the user, by what is known before the call |
| AuthStackOverlap.AcceptedStartIsInSession | biod/cros_fp_auth_stack_manager.cc:156-315 | after an accepted start the manager is in that session's mode and the new closure can end it: assigning over an old enroll closure never ends the new enrolment |
| AuthStackOverlap.ManagerSessionsAreHeld | biod/cros_fp_auth_stack_manager.cc:156-802 | a session the manager is working on is held in its slot by a closure that can end it, an image or a match is awaited for nothing else, and a finger is never awaited up while one of them is due |
| AuthStackOverlap.StepOneSession | biod/cros_fp_auth_stack_manager.cc:874-906 | from one live session a step leads to two iff it is an enroll start that passes every check while an auth session is held; an auth start over an enrolment is always refused |
| AuthStackOverlap.OneAtATimeIsLive | biod/cros_fp_auth_stack_manager.cc:526-542 | as long as there has been one session at a time its closure can end it |
| AuthStackOverlap.OneAtATimeIffNoOverlap | biod/README.md:231-232 | at most one session is held throughout a run iff no enroll start that passes every check on the way to the sensor comes while an auth session is held |
| AuthStackOverlap.StepInSync | biod/cros_fp_auth_stack_manager.cc:526-542 | a held closure loses its power iff the other one of two held sessions is ended |
| AuthStackOverlap.InSyncIff | biod/cros_fp_auth_stack_manager.cc:526-542 | every held closure can end its session throughout a run iff never one of two held sessions is ended |
| AuthStackOverlap.NoOverlapKeepsInSync | biod/cros_fp_auth_stack_manager.cc:526-542 | without overlapping starts there is at most one session and its closure can end it |
| AuthStackOverlap.RunFaithful | biod/auth_stack_manager_wrapper.cc:109-384 | the wrapper inside the system is the wrapper model run on the events that reached it |
| AuthStackOverlap.ContractIffNoOverlap | biod/auth_stack_manager.h:28-66 | the fingerprint manager keeps the interface contract in a run iff no such enroll start happens in it |
| AuthStackOverlap.SystemRefinesSessionMachine | biod/cros_fp_auth_stack_manager.cc:156-802 | without overlapping starts, wrapper, manager, closures and sensor together have the session and the output of the three-state machine, and a held enrolment is one the sensor is read for |
| AuthStackOverlap.OverlapStrandsTheEnrolment | biod/README.md:225-232 | a run in which both slots are held, and in which ending the auth session makes the manager drop the enrolment while the wrapper keeps it and emits no signal about it |
| AuthStackSensor.StaysLocked | biod/cros_fp_auth_stack_manager.h:54-56 | a locked manager with no sensor action pending stays locked whatever happens; one with an action pending does so if the sensor is off and reports only what it was told to look for |
| AuthStackSensor.UnfinishedBusinessUnlocks | biod/cros_fp_auth_stack_manager.cc:646-760 | the one or two sensor events that a pending action is waiting for take a locked manager out of the locked state and make it ready for the next start, with the same user loaded; if the sensor is still on they are what it reports |
| AuthStackSensor.LockedForGoodIff | biod/cros_fp_auth_stack_manager.h:54-56 | a locked manager is locked in every future iff no session had a sensor action pending; in every future without stray sensor events, iff none had one with the sensor still looking for it |
| AuthStackSensor.LockedMidway | biod/cros_fp_auth_stack_manager.cc:452-485 | a run that locks the manager in the middle of an enrolment with the sensor still on |
| AuthStackSensor.StepActiveIsWaiting | biod/cros_fp_auth_stack_manager.cc:859-872 | a step breaks the rule that an active state has the next action that gets it out iff it is an enroll start that fails to set the sensor mode while a finger is awaited up |
| AuthStackSensor.ActiveIsWaitingIff | biod/cros_fp_auth_stack_manager.h:180-181 | an active state has its next action throughout a run iff no such start happens |
| AuthStackSensor.StepActiveIsServed | biod/cros_fp_auth_stack_manager.cc:606-622 | a step breaks the rule that the sensor looks for what an active state awaits iff it is such a start, or sends the templates again during a session, for a deleted record or another user, and the reset succeeds |
| AuthStackSensor.ActiveIsServedIff | biod/cros_fp_auth_stack_manager.cc:606-622 | an active state has its next action and a sensor looking for it throughout a run iff no such step happens |
| AuthStackSensor.DeletionSilencesSensor | biod/cros_fp_device.cc:739-761 | a run that deletes a record during an auth session, which stays held and awaited with the sensor off |
| AuthStackSensor.StepDeaf | biod/cros_fp_auth_stack_manager.cc:544-548 | an auth session without a next action stays so, in its slot and without an announced scan, through every happening that does not end it |
| AuthStackSensor.LostFingerUpIsDeaf | biod/cros_fp_auth_stack_manager.cc:279-315 | with the wait for the finger lost, the next auth session for a user who is loaded or can be is accepted, and in every run that does not end it it stays in its slot and no scan is announced |
| AuthStackSensor.FingerUpIsLost | biod/cros_fp_auth_stack_manager.cc:156-212 | a run that gets there |
| AuthStackAccounts.AuthenticateReplyMeans | biod/cros_fp_auth_stack_manager.cc:317-450 | after any run an authentication is refused for its state iff the manager is not ready; otherwise there is a match reported last and not used, and each of the other answers, scan results included, is given iff the result of that match, the power button, the record and the secret are as stated; no other answer is ever given |
| AuthStackAccounts.EveryMatchUsedOnce | biod/cros_fp_auth_stack_manager.cc:317-450 | every answer ever given to an authentication is about the match reported last, which no answer before was about, and success was answered to positive matches only |
| AuthStackAccounts.CreateReplyMeans | biod/cros_fp_auth_stack_manager.cc:214-277 | after any run the creation of a credential is refused for its state iff the manager is not ready or no user is loaded; otherwise an enrolment is there that no credential was made of, and the answer is that of the first of template, secret and store that fails, or success |
| AuthStackAccounts.EveryCredentialFromAnEnrolment | biod/cros_fp_auth_stack_manager.cc:214-277 | every credential ever created is made of an enrolment finished or a template migrated since the credential before it, and for a loaded user |
| AuthStackSignals.StepHeard | biod/cros_fp_auth_stack_manager.cc:646-802 | in every reachable state what a step puts on the bus is what is stated from the happening and the state before it: progress with its scan result and percentage, completion, failure, the match, replies to starts and ends, owners lost, and calls handed on |
| AuthStackSignals.RunHeard | biod/auth_stack_manager_wrapper.cc:109-384 | over every run the bus hears that, in that order, and nothing else |
| AuthStackSignals.BusMatchesAccounts | biod/cros_fp_auth_stack_manager.cc:646-760 | over every run sessions begun, enrolments finished and fingers seen come on the bus and in the manager's accounts in the same order, none missing on either side; so there are as many AuthScanDone signals as matches seen |
| AuthStackUsers.InOwnHandsIff | biod/cros_fp_auth_stack_manager.cc:582-604 | what a session yields stays with the user it was started for throughout a run iff no login and no failed auth start loads another user while an enrolment or a match is in hand, and no template is migrated for a user who is not the loaded one |
| AuthStackUsers.EverythingToItsOwner | biod/cros_fp_auth_stack_manager.cc:251-259 | in such a run every credential goes to the user who enrolled or whose template was migrated, and every match is used for the user it was awaited for |
| AuthStackUsers.MatchChangesHands | biod/cros_fp_auth_stack_manager.cc:498-501 | a run in which a match awaited for one user is used, with success, for another who logged in |
| AuthStackUsers.CredentialChangesHands | biod/cros_fp_auth_stack_manager.cc:279-308 | a run in which an enrolment of one user becomes a credential of another for whom an auth start failed, the sensor not having been reset |
| AuthStackUsers.MigrationChangesHands | biod/cros_fp_auth_stack_manager.cc:962-1039 | a run in which a legacy template of the user who logged in becomes a credential of another who was loaded since |
| AuthStackUsers.LoginKeepsOthersOutIff | biod/cros_fp_auth_stack_manager.h:206-210 | after a login in any state, no start is accepted for another user in any future without a logout iff its user was loaded and tied already, or the user was not loaded, nobody else is tied, and loading succeeds or leaves a lock with nothing pending, or the manager was locked with nothing pending |
| AuthStackUsers.LoginDoesNotKeepOut | biod/cros_fp_auth_stack_manager.cc:584-587 | a run in which a user who is loaded already logs in and another is served next |
| AuthStackUsers.LoginsByHistory | biod/cros_fp_auth_stack_manager.cc:487-501 | after every run the migrator serves whoever logged in first since the last logout, and the manager is tied to its user iff since then somebody logged in who was not the loaded user |
| AuthStackSensor.StepPendingIffAuthDone | biod/cros_fp_auth_stack_manager.h:220-223 | a step breaks the rule that a match is pending iff the state is AuthDone iff it comes in AuthDone and passes the checks listed for its call, or loads or uploads in vain and locks; AuthDone always has a match |
| AuthStackSensor.AlwaysPendingIff | biod/cros_fp_auth_stack_manager.h:220-223 | the rule holds throughout a run iff no such step happens in it |
| AuthStackSensor.AbandonedMatchLingers | biod/cros_fp_auth_stack_manager.h:220-223 | a run that leaves a match pending in the enroll state |
| AuthStackDaemon.CrosFpAuthStackManager.constructor | biod/cros_fp_auth_stack_manager.cc:45-80 | the manager object starts in the initial state with no closure issued |
| AuthStackDaemon.CrosFpAuthStackManager.RunClosure | biod/cros_fp_auth_stack_manager.cc:526-532 | a closure kills the session iff its weak pointer is still good |
| AuthStackDaemon.CrosFpAuthStackManager.KillMcuSession | biod/cros_fp_auth_stack_manager.cc:534-542 | the fields after killing a session, with all weak pointers invalidated |
| AuthStackDaemon.CrosFpAuthStackManager.StartEnrollSession | biod/cros_fp_auth_stack_manager.cc:156-212 | state, action and issued closure after an enroll start, on every failure path |
| AuthStackDaemon.CrosFpAuthStackManager.LoadUser | biod/cros_fp_auth_stack_manager.cc:582-604 | user, lock and state after loading a user |
| AuthStackDaemon.CrosFpAuthStackManager.StartAuthSession | biod/cros_fp_auth_stack_manager.cc:279-315 | state, pending request and issued closure after an auth start, on every failure path |
| AuthStackDaemon.CrosFpAuthStackManager.OnUserLoggedIn | biod/cros_fp_auth_stack_manager.cc:498-501 | user, tie and state after a login, and the migrator's user, set unless it has one |
| AuthStackDaemon.CrosFpAuthStackManager.OnUserLoggedOut | biod/cros_fp_auth_stack_manager.cc:487-496 | the tie and the migrator's user are gone, the loaded user is not |
| AuthStackDaemon.CrosFpAuthStackManager.EnrollLegacyTemplate | biod/cros_fp_auth_stack_manager.cc:916-1039 | outcome, state and accounts after migrating a template of the migrator's user |
| AuthStackDaemon.CrosFpAuthStackManager.DoEnrollImageEvent | biod/cros_fp_auth_stack_manager.cc:646-705 | manager and wrapper after an image event, callbacks included |
| AuthStackDaemon.CrosFpAuthStackManager.DoEnrollFingerUpEvent | biod/cros_fp_auth_stack_manager.cc:707-717 | manager and wrapper after a finger-up event during enrolment |
| AuthStackDaemon.CrosFpAuthStackManager.AnswerMatch | biod/cros_fp_auth_stack_manager.cc:350-441 | the switch over match results with the power button, record and secret gives the reply of the model, whose meaning is AuthenticateReplyMeans |
| AuthStackDaemon.CrosFpAuthStackManager.OnMatchFingerDown | biod/cros_fp_auth_stack_manager.cc:749-760 | manager and wrapper after a match event, the signal included, which StepHeard states |
| AuthStackDaemon.CrosFpAuthStackManager.OnFingerUpEvent | biod/cros_fp_auth_stack_manager.cc:773-802 | manager and wrapper after the finger is lifted, with the pending request started or failed |
| AuthStackDaemon.CrosFpAuthStackManager.OnMkbpEvent | biod/cros_fp_auth_stack_manager.cc:544-548 | a sensor event goes to the pending action |
| AuthStackDaemon.AuthStackManagerWrapper.OnNameOwnerChanged | biod/auth_stack_manager_wrapper.cc:121-161 | the object's fields, log and manager after the loss of a name are those of the model |
| AuthStackDaemon.AuthStackManagerWrapper.OnEnrollScanDone | biod/auth_stack_manager_wrapper.cc:163-185 | the same after an enroll scan, ended session included |
| AuthStackDaemon.AuthStackManagerWrapper.OnAuthScanDone | biod/auth_stack_manager_wrapper.cc:187-195 | the same after an auth scan |
| AuthStackDaemon.AuthStackManagerWrapper.OnSessionFailed | biod/auth_stack_manager_wrapper.cc:197-219 | the same after a failure report, with objects finalized before closures are run |
| AuthStackDaemon.AuthStackManagerWrapper.StartEnrollSession | biod/auth_stack_manager_wrapper.cc:228-256 | the same after an enroll start, with the old closure run by the assignment |
| AuthStackDaemon.AuthStackManagerWrapper.StartAuthSession | biod/auth_stack_manager_wrapper.cc:266-300 | the same after an auth start, with the old closure released and the object reused |
| AuthStackDaemon.AuthStackManagerWrapper.EnrollSessionCancel | biod/auth_stack_manager_wrapper.cc:327-341 | the same after a cancel, refused iff no closure is held |
| AuthStackDaemon.AuthStackManagerWrapper.AuthSessionEnd | biod/auth_stack_manager_wrapper.cc:343-357 | the same after an end, refused iff no closure is held |
| AuthStackDaemon.AuthStackManagerWrapper.Destroy | biod/auth_stack_manager_wrapper.h:80-97 | the fields are destroyed in reverse order of declaration, as the model says |
| AuthStackDaemon.AuthStackManagerWrapper.Handle | biod/auth_stack_manager_wrapper.cc:109-384 | whatever happens, the two objects make the step of the system model |
| AuthStackDaemon.Serve | biod/auth_stack_manager_wrapper.cc:34-103 | after any sequence of happenings the two objects are in the state the system model reaches |
| CrosFpRecords.DoInSync | biod/cros_fp_session_manager_impl.cc:30-176 | every operation keeps memory and disk in sync: the records in memory are the valid ones of the loaded user on disk, and the index has all of that user's files, valid or not, whatever the disk refuses |
| CrosFpRecords.DoAll | biod/cros_fp_session_manager_impl.cc:30-176 | memory and disk are in sync after every run |
| CrosFpRecords.CreateThenDelete | biod/cros_fp_session_manager_impl.cc:72-167 | creating a record and deleting it again leaves memory, index and disk as they were |
| CrosFpRecords.DeleteReplyMeans | biod/cros_fp_auth_stack_manager.cc:452-485 | a deletion answers success only if the record is gone and nothing else with it; any other answer leaves everything as it was; it does not exist iff the user is loaded and has no such valid record; it fails iff the disk refuses, or the user is not loaded and nobody is or whoever is has a file of that id; the manager's state changes iff a record of the loaded user is deleted and the sensor refuses the rest, and then it is locked |
| CrosFpRecords.CreateReplyStores | biod/cros_fp_auth_stack_manager.cc:214-277 | a created credential is on disk under the loaded user and last in memory, with nothing else changed; every other answer leaves memory, index and disk as they were; it fails at the record iff the user has a file of that id or the disk refuses |
| AuthStackTemplates.RunFull | biod/cros_fp_auth_stack_manager.cc:582-622 | in every run with records and sensor memory, the manager's user is the store's, memory and disk are in sync and the system invariant holds |
| AuthStackTemplates.FullRunIsRun | biod/cros_fp_auth_stack_manager.cc:156-501 | such a run is a run of the system, so every theorem about runs holds of it |
| AuthStackTemplates.AlignedIff | biod/cros_fp_auth_stack_manager.cc:606-622 | unless the manager is locked, the sensor's templates are the loaded user's valid records in order, with one new one behind them at most while a credential can be made of it, throughout a run iff no new template is abandoned, the sensor forgets when told to, and no session comes back from a lock with templates missing |
| AuthStackTemplates.TemplateAbandoned | biod/cros_fp_auth_stack_manager.cc:279-315 | a run that starts an authentication with a template in the sensor that is of no record |
| AuthStackTemplates.LockLeavesMissing | biod/cros_fp_auth_stack_manager.cc:606-622 | loading a user whose templates the sensor does not all take locks the manager, with the first records in the sensor and not all |
| AuthStackTemplates.FaithfulIff | biod/cros_fp_auth_stack_manager.cc:415-441 | that, and the record at the index of the pending match being the one that matched, hold throughout a run iff none of those things happens and, while a match is pending, no other user with a different record at its index is loaded and no record at or before its index is deleted with another behind |
| AuthStackTemplates.AuthenticateNamesMatch | biod/cros_fp_auth_stack_manager.cc:415-441 | in such a run every successful authentication names the record that matched, which is the loaded user's and on disk |
| AuthStackTemplates.MatchNamesAnother | biod/cros_fp_auth_stack_manager.cc:452-485 | a run in which the first of two records matches, is deleted, and the authentication then succeeds for the other |
| AuthStackTemplates.NewIsOwnIff | biod/cros_fp_auth_stack_manager.cc:232-266 | a template that is being enrolled, or that a credential can be made of, is the loaded user's throughout a run iff no login loads another user during an enrolment, no login or failed auth start loads one without valid records behind a new template that the sensor does not forget, and no template is migrated for another user |
| AuthStackTemplates.TemplateChangesHands | biod/cros_fp_auth_stack_manager.cc:582-622 | a run after which the disk has a credential of one user made of the finger of another |
| CrosFpSessionManager.CrosFpSessionManagerImpl.LoadUser | biod/cros_fp_session_manager_impl.cc:30-49 | refused while a user is loaded; otherwise every file read is indexed and the valid ones are in memory in the order read |
| CrosFpSessionManager.CrosFpSessionManagerImpl.CreateRecord | biod/cros_fp_session_manager_impl.cc:72-92 | the object's memory, index and disk after creating a record, on every failure path |
| CrosFpSessionManager.CrosFpSessionManagerImpl.HasRecordId | biod/cros_fp_session_manager_impl.cc:126-137 | true iff a user is loaded and has the record |
| CrosFpSessionManager.CrosFpSessionManagerImpl.DeleteRecord | biod/cros_fp_session_manager_impl.cc:139-167 | the object's memory, index and disk after deleting a record, the file first, on every failure path |
| CrosFpSessionManager.CrosFpSessionManagerImpl.DeleteNotLoadedRecord | biod/cros_fp_session_manager_impl.cc:169-176 | the same for a record of a user who is not loaded |
| RuleText.TokensIff | avtest_label_detect/table_lookup.c:59-70 | the tokens of a text are the one sequence of delimiter-free words it consists of, however spaced |
| RuleText.CommentsDoNotMatter | avtest_label_detect/table_lookup.c:52-57 | what follows a hash sign never matters, and a blank rule prints nothing |
| RuleText.RuleRoundTrip | avtest_label_detect/table_lookup.c:50-75 | a rule written out with any spacing prints exactly its labels iff its pattern matches the board |
| RuleText.SeparatedRule | avtest_label_detect/table_lookup.c:50-75 | a rule whose words are separated by blanks, or by tabs, prints its labels iff its pattern matches |
| RuleText.ChunksReassemble | avtest_label_detect/table_lookup.c:92-98 | the chunks read are the file in pieces of 1 to 1023 characters |
| RuleText.ChunksOfLine | avtest_label_detect/table_lookup.c:92-98 | no chunk crosses the end of a line, so a file is chunked line by line |
| RuleText.RuleFileByLine | avtest_label_detect/table_lookup.c:92-98 | for every text file the loop prints, in order, the labels of what it takes for the rule of each line |
| RuleText.OverlongRuleSkippedIff | avtest_label_detect/table_lookup.c:93-96 | a line under 1023 characters is the rule it looks like; a longer one is skipped iff what is left behind its last full buffer has no label or no matching pattern |
| RuleText.OverlongRuleIsObeyed | avtest_label_detect/table_lookup.c:93-96 | 1023 characters of anything and then a rule: the rule is obeyed |
| RuleText.ValueIsMeantIff | avtest_label_detect/table_lookup.c:31-34 | chopping the last character yields the value iff the line ends in a newline or has no value |
| RuleText.ScanBoardByLine | avtest_label_detect/table_lookup.c:21-41 | scanning chunks finds what scanning lines finds: the scan stops before they differ |
| RuleText.BoardNameIff | avtest_label_detect/table_lookup.c:10-48 | for every text file a board name is found iff a key line comes before the first overlong line or overlong value, and it is the value of the last such key line |
| RuleText.BoardNameIsMeantIff | avtest_label_detect/table_lookup.c:31-40 | the name found is what its line says iff the line is not the last of a file without a newline at its end, or has no value |
| RuleText.UnendedFileLosesCharacter | avtest_label_detect/table_lookup.c:31-40 | a release file without a newline at its end whose board name loses its last character |
| RuleText.LookupMeaning | avtest_label_detect/table_lookup.c:77-103 | with rule lines under 1023 characters the lookup prints the labels of all rules matching the value of that key line, in order, and nothing without one or without one of the files |
| RuleText.BoardFound | avtest_label_detect/table_lookup.c:10-48 | a release file that names its board between other lines is understood iff the name is shorter than 64 |
| RuleText.LookupFindsBoard | avtest_label_detect/table_lookup.c:77-103 | with both files as they are meant to be written the lookup prints, in order, the labels of the rules that match the board named |
| TableLookup.TextFile.Gets | avtest_label_detect/table_lookup.c:21-21 | one fgets call: the next chunk is in the buffer, terminated, and gone from the file |
| TableLookup.StrTok | avtest_label_detect/table_lookup.c:59-70 | strtok writes a NUL behind the token it returns, which is the first token of the string, and its cursor is left at a string with exactly the other tokens |
| TableLookup.CutComment | avtest_label_detect/table_lookup.c:52-57 | the buffer holds what came before the first hash sign |
| TableLookup.MatchRule | avtest_label_detect/table_lookup.c:50-75 | the destructive parser prints what the pure reading of the rule says |
| TableLookup.PrintRules | avtest_label_detect/table_lookup.c:90-102 | the loop over the rule file prints the labels of all its chunks in order, and nothing if the file cannot be opened |
| TableLookup.TakeBoardLine | avtest_label_detect/table_lookup.c:22-40 | one round of the loop over the release file: when it goes on, when it takes a value, and what is in the caller's buffer |
| TableLookup.GetBoardName | avtest_label_detect/table_lookup.c:10-48 | found iff the scan finds a name, which is then a terminated string within the caller's buffer; otherwise the buffer is untouched |
| TableLookup.DetectLabelByBoardName | avtest_label_detect/table_lookup.c:77-103 | the labels printed are those of the two files' meaning |
| Resolutions.BestIsMaximal | avtest_label_detect/util_v4l2.c:274-288 | the running maximum is one of the candidates and no other candidate is as large in both dimensions |
| Resolutions.DominatingIsBest | avtest_label_detect/util_vaapi.c:316-319 | a candidate that dominates all others is the result |
| Resolutions.TestIsSound | avtest_label_detect/detect_resolution.c:83-86 | a bound that the result meets is met by some candidate |
| Resolutions.TestIsExactIff | avtest_label_detect/detect_resolution.c:83-86 | testing the result tells for every bound whether some candidate meets it iff one candidate dominates or there is none |
| Resolutions.OrderIrrelevantIff | avtest_label_detect/util_vaapi.c:296-320 | every order of the candidates gives the same result iff one dominates or there is none |
| Resolutions.OrderHidesUhd | avtest_label_detect/util_vaapi.c:296-320 | two sizes of which one is 4k: the 4k test fails in one order and holds in the other |
| V4l2.IsMatchingBppFormat | avtest_label_detect/util_v4l2.c:14-43 | true iff the format is the one of that depth |
| V4l2.IsStatelessDecoderFormatSupported | avtest_label_detect/util_v4l2.c:151-193 | true iff the driver accepts format and parameters and announces no frames of another depth |
| V4l2.IsV4l2SupportFormat | avtest_label_detect/util_v4l2.c:195-229 | the enumeration finds the format iff the queue lists it; then parsed-frame formats are probed and others need eight bits |
| V4l2.GetV4l2MaxResolution | avtest_label_detect/util_v4l2.c:263-290 | the result, read as unsigned, is the end of the first range or else the running maximum of the discrete sizes; it succeeds iff both dimensions are positive as signed |
| V4l2.DiscreteSizeTestExactIff | avtest_label_detect/util_v4l2.c:263-290 | for positive discrete sizes below 2^31 the query succeeds iff there is one, and a test of the result is exact for every bound iff one size dominates |
| V4l2.LargestIsSome | avtest_label_detect/util_v4l2.c:263-290 | whatever the driver enumerates, a bound that the result meets is met by one of its frame sizes |
| V4l2.FirstRangeDecides | avtest_label_detect/util_v4l2.c:282-289 | the result is the end of the first range, whatever comes before or after it |
| V4l2.LargestTestExactIff | avtest_label_detect/util_v4l2.c:263-290 | for every mixture of ranges and discrete sizes a test of the result is exact, for every bound but 0x0, iff the first range, or without one some discrete size, covers every size enumerated; for positive bounds the same if no size is empty |
| V4l2.IsV4l2EncVbrSupported | avtest_label_detect/util_v4l2.c:295-316 | the scan with unsigned index and signed comparison ends unless it diverges, and finds the mode iff it is in range or the maximum is the largest integer, and the menu has it |
| V4l2.ScanDivergesIff | avtest_label_detect/util_v4l2.c:306-313 | the scan goes on in every round iff the maximum is the largest integer and the menu lacks the mode |
| V4l2.EndlessScan | avtest_label_detect/util_v4l2.c:306-313 | a driver with whose menu the scan never ends |
| V4l2.ScanIsRightIff | avtest_label_detect/util_v4l2.c:306-313 | the scan ends with what the menu says within its bounds iff the maximum leaves room for one more, or the mode is there and not below the minimum |
| Vaapi.HasVaapiEntrypoint | avtest_label_detect/util_vaapi.c:21-36 | true iff the driver answers and its formats overlap the one asked for |
| Vaapi.OverlapIff | avtest_label_detect/util_vaapi.c:34-35 | two masks overlap iff they share a bit |
| Vaapi.MatchVaapiCapabilities | avtest_label_detect/util_vaapi.c:41-80 | the nested loop finds a match iff some required profile is listed with this entrypoint and format |
| Vaapi.MatchesIff | avtest_label_detect/util_vaapi.c:41-80 | a match in the driver's own answers: a profile in front of the terminator that the driver lists and whose answer shares a bit with the format |
| Vaapi.FormatsAreAlternatives | avtest_label_detect/util_vaapi.c:21-80 | asking for no format finds nothing, and asking for two at once finds either |
| Vaapi.HasAllIff | avtest_label_detect/util_vaapi.c:170-177 | a value has all that is required iff it has every bit of it |
| Vaapi.MatchesDependsOnSet | avtest_label_detect/util_vaapi.c:67-78 | matching is monotone in the set of required profiles and ignores order and repetition |
| Vaapi.IsVaapiSupportFormats | avtest_label_detect/util_vaapi.c:85-113 | the same behind a display that is valid and initializes |
| Vaapi.IsEntrypointSupported | avtest_label_detect/util_vaapi.c:116-148 | true iff the driver lists the entrypoint within a sane count |
| Vaapi.AreAttribsSupported | avtest_label_detect/util_vaapi.c:151-184 | true iff the driver answers and for each required attribute gives its type and all its bits |
| Vaapi.LastOnesCount | avtest_label_detect/util_vaapi.c:258-265 | the last width and the last height in the attribute list are the ones taken |
| Vaapi.GetMaxResolution | avtest_label_detect/util_vaapi.c:217-268 | the largest surface of a profile, on every failure path |
| Vaapi.CandidatesIff | avtest_label_detect/util_vaapi.c:296-314 | a size is a candidate iff some profile of the list passes the filters with it |
| Vaapi.GetVaapiMaxResolution | avtest_label_detect/util_vaapi.c:272-323 | the result is the running maximum over the profiles that pass the filters, and succeeds iff there is one |
| DeviceSearch.DeviceFiles.IsAnyDevice | avtest_label_detect/util.c:25-48 | true iff some file can be opened and satisfies the predicate; the predicate is asked only of open files, no file stays open, and the actions are one round per file tried |
| DeviceSearch.DeviceFiles.DoesAnyDeviceSupportResolution | avtest_label_detect/util.c:50-78 | true iff some file can be opened and satisfies the predicate with this width and this height; the same actions as the other search |
| DeviceSearch.TriedIff | avtest_label_detect/util.c:32-45 | a file is tried, once, iff it can be opened and no earlier one was a success |
| DeviceSearch.RoundsBracket | avtest_label_detect/util.c:34-44 | every call lies between the opening and the closing of its file, and there are as many of each action as rounds with the file |
| DeviceSearch.SearchTouchesEachFileOnce | avtest_label_detect/util.c:25-78 | over a search each file that is reached and can be opened is opened, asked about and closed exactly once, and no other is touched |
| VideoLabels.DecodeLabelsChain | avtest_label_detect/detect_resolution.c:299-504 | for every codec, build and machine the 8k label implies the 4k label and the 4k label the decoding label; when each is given is DetectDecIff, DetectLargeIff and Detect4kIff |
| VideoLabels.EncodeLabelsChainIff | avtest_label_detect/detect_resolution.c:511-577 | the 4k encoding label implies the encoding label on every machine, except for VP9 in a build for V4L2 alone |
| VideoLabels.PromiseKeptIff | avtest_label_detect/detect_resolution.c:294-450 | per codec: a 4k label claims no more than its comment on every machine except for AV1 and HEVC in a build for V4L2 alone, and is given to every machine its comment promises it to except for the other codecs in a build for both interfaces |
| VideoLabels.SizeTestExactIff | avtest_label_detect/detect_resolution.c:72-87 | the size test of a supported list of profiles is sound for every bound, and exact for every bound iff one profile's size dominates |
| VideoLabels.SplitDriverMisses4k | avtest_label_detect/detect_resolution.c:72-94 | a driver with a 4k H.264 profile behind a wider but lower one decodes H.264 and fails the 4k test |
| VideoLabels.SingleProfileLabelsExact | avtest_label_detect/detect_resolution.c:339-504 | for every codec with one profile, in a build for VAAPI the 4k and 8k labels say exactly that some device decodes it and reaches that size with it; in another build there is no 8k label and the 4k label says that some video device has a frame size of 4k |
| VideoLabels.VbrImpliesPlain | avtest_label_detect/detect_hw_video_acc.c:684-821 | every variable bitrate label implies the plain encoding label |
| VideoLabels.AreVaapiAttribsSupported | avtest_label_detect/util_vaapi.c:187-213 | attributes are supported behind a display that is valid and initializes |
| VideoLabels.IsVaapiEncH264VbrDevice | avtest_label_detect/detect_hw_video_acc.c:353-373 | the nested loop finds a profile and an encoding entrypoint with variable bitrate iff there is one |
| VideoLabels.IsVaapiEncVbrDevice | avtest_label_detect/detect_hw_video_acc.c:397-459 | the loop over the entrypoints of VP8 and of VP9 finds one with variable bitrate iff there is one |
| LabelOffers.DetectDecIff | avtest_label_detect/detect_hw_video_acc.c:531-683 | the decoding label, build by build, iff some device that can be opened gives the answers the codec needs; with VAAPI the label of VP9 profile 2 is for render devices alone |
| LabelOffers.DetectEncIff | avtest_label_detect/detect_hw_video_acc.c:689-811 | the encoding label, iff some render device encodes through either entrypoint or, for H.264 and VP8, some video device has the bitstream |
| LabelOffers.DetectEncVbrIff | avtest_label_detect/detect_hw_video_acc.c:710-825 | the variable bitrate label, iff some such device has the mode for the same profile and entrypoint, or in its menu, where the scan gets to it |
| LabelOffers.Detect4kIff | avtest_label_detect/detect_resolution.c:192-290 | without VAAPI the 4k labels, iff some video device takes or makes the format and its frame sizes reach 4k |
| LabelOffers.DetectLargeIff | avtest_label_detect/detect_resolution.c:319-504 | with VAAPI the 4k and 8k labels of the codecs with one profile, in the answers of the render devices: entrypoint within bounds, format, configuration, and the last size given |
| LabelOffers.OneOfferDecodes | avtest_label_detect/detect_resolution.c:299-504 | a render device with one profile, entrypoint, set of formats and size gets exactly the decoding labels of its codec and of the sizes it reaches: 4k from 3840x2160, 8k from 7680x4320 |
| LabelOffers.OneOfferEncodes | avtest_label_detect/detect_hw_video_acc.c:689-825 | the same of the encoding, 4k encoding and variable bitrate labels |
| LabelOffers.OneVideoOfferDecodes | avtest_label_detect/detect_hw_video_acc.c:45-133 | a video device with one format and depth gets exactly the decoding and 4k labels of the codec that the format carries |
| LabelOffers.OneVideoOfferEncodes | avtest_label_detect/detect_hw_video_acc.c:139-171 | the same of the encoding labels, and of variable bitrate by the menu |
| LabelOffers.DecodingLabelsDiffer | avtest_label_detect/detect_hw_video_acc.c:531-683 | in every build there is for every codec a machine that gets the label of that codec alone, so no decoding label implies another |
| LabelOffers.EncodingLabelsDiffer | avtest_label_detect/detect_hw_video_acc.c:689-811 | the same of the encoding labels in builds with VAAPI |

## Left out

- V4l2.DiscreteSizeTestExactIff: covers sizes that are positive and below 2^31 only, for which the answer is the test; the test itself is characterised for all enumerations by LargestTestExactIff. A larger size counts as negative in the answer.
- Vaapi.MatchVaapiCapabilities: takes libva's promise that it lists no more profiles than its maximum; a driver that writes past the buffer is not modelled.
- TableLookup.MatchRule: takes every pattern for one that compiles; matching itself is a parameter.
- Biod: D-Bus marshalling, object paths, error texts, protobuf contents, metrics, logging and latency reports.
- Biod: secrets, encryption and the pairing key; of a reply only the status and the record it is about are modelled.
- Biod: the bits of a sensor event (a record of the fields they encode), the update of dirty templates and the maintenance scheduler.
- Biod: the loop that uploads templates, which is how many of them the sensor takes; and ResetContext, which is two answers, whether the sensor is switched off and whether it forgets its templates.
- Biod: a sensor that refuses to be switched off at the end of a session, whose events nobody listens to.
- Biod: the manager interface is not a class of its own; its mode is a function of the closures issued and run and of the failures reported.
- Biod: the format of records on disk and directories; a file is a template and whether it is valid. Files that cannot be read at all are not there.
- Biod: in the system model what the record store, the power button filter and the sensor device say are answers; AuthStackTemplates ties those about records and templates to the records and to the sensor's memory.
- Biod: the older BiometricsManager interface and its wrapper.
- Label detector: read errors, the retry of interrupted system calls, what ioctl, glob, open and libva do inside; that answers stay the same between detectors is assumed.
- Label detector: the variable bitrate labels use the answer of a scan that ends; a scan that does not end gives no label at all.
- Label detector: JPEG, protected-content and vendor labels, version gates of libva (taken as passed), printing and the command line.
