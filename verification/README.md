# Event loop and bundle installer: a verified model

This project models two parts of the application framework and proves what they promise.

**The event loop library** (`libs/libeventhandler`). `EventQueue.dfy` holds the timed priority queue, its
state as a value, each locked region as a function, and a class that works in place and is proved against
those functions. `EventRuns.dfy` and `IdleRule.dfy` prove properties of whole runs. `EventLoop.dfy` is a
state machine of one runner thread, any number of senders, the owner's destructor and both kinds of
waiter; regions under the queue lock are atomic, and a sender may pause between looking at the waiting count
and writing to the event descriptor. `ThreadCollector.dfy` is the state machine of the thread that joins
finished threads, `InnerEvents.dfy` that of the recycled events and the synchronous senders waiting on them.

**The bundle install transaction** (`services/bundlemgr`). `BundleData.dfy` has the eleven install states,
the record of a bundle, and the data manager's operations on the entries of one bundle as functions;
`BundleDataMgr.dfy` has the manager's maps and loops, each method proved to change one bundle as those
functions say and no other. `BundleIds.dfy` has the id allocator over all runs with restarts.
`InstallRules.dfy` says what an undisturbed request does to a record; `Installer.dfy` is the installer
object, with every call into installd, storage, the permission manager and the process killer free to fail. Its ghost
fields count the failed calls (`faults`), count the failed saves of a record among them (`failedSaves`) and list the
durable calls that succeeded (`calls`); a call is undisturbed when `faults` has not grown. The installer works on the
entries of its own bundle (`slot`) by the same functions as the data manager. `CrashRecovery.dfy` has the durable
calls, what a power cut leaves of each, boot-time recovery, and runs of operations, power cuts and boots;
`CrashLimits.dfy` shows where crash consistency ends; `ExceptionHandler.dfy` has the recovery object and what happens
when recovery itself fails or is cut. `StorageLoad.dfy` has the loop that loads all stored bundles through recovery.

## What does not hold as one would expect

The code is followed where its intention and its effect differ; each case is proved, with the exact condition.

- Recovery works in the directory named by the code-directory constant joined to the bundle name without a
  separator, the installer with one. The constant ends without one, so recovery repairs nothing on disk: each
  operation survives every power cut iff the constant ends with a separator (`DerivedRecoveryIsConsistentIff`,
  `UpdateWindowIsNotRepaired`). The other crash theorems are stated for recovery in the installer's own directory.
- The removal of lower-version modules after an update is covered by no mark: a request of one package survives every
  power cut iff its version is not higher or the bundle has no other module (`RequestIsCrashConsistentIff`).
- A request of one package that fails and is rolled back survives every power cut iff its new record had not been
  saved (`RolledBackIsConsistentIff`). Until then the stored mark covers the rollback. Afterwards, while the staged
  directory of an update is removed, the record announces a finished update: a cut in the middle of the removal makes
  recovery give the half-deleted directory the module's name, over the good code (`RollbackWindow`). The rollback of a
  recorded addition removes the code before the record (`AddRollbackWindow`).
- A rollback does not take finished renames back: when a later rename of a several-package update fails, the disk
  agrees with the restored record iff the installed packages renamed before are reinstalled at their old version
  (`FailedRenameAgreesIff`).
- A rollback restores the module map when none of its own saves fails. When the save of a single package fails, the
  map stays as the failure left it, and nothing reports it (`RollBack`).
- A user new to the bundle is taken out again when the request fails, but stays when it fails at a rename
  (`ProcessBundleInstall`).
- A higher-version request with the normal flag for a user new to the bundle can leave a module of the old
  version behind (`VersionsAfterInstall`, `StaleNeeds`, `StaleExample`).
- A failed first install removes the bundle's directory, but keeps its record iff it stopped past an extraction: the
  package that failed, the second or a later one, had been extracted, or the failure came after the last of several
  packages; a package without a name fails before it begins, so then the one before it decides (`RollBack`,
  `InstallWithGuards`). Where it stopped can be read off the result and the number of records and packages of code
  written, three for each package done (`PastExtraction`, `CountTellsWhere`). So a bundle whose second package was recorded can be removed when the third
  fails early (`FailingThirdPackage`), and one whose second package was never recorded can stay
  (`FailingSecondPackage`).
- Reporting a failed install for a recorded bundle would leave a record without a state (`SoundRuns`). The installer
  never does: each of its calls of `UpdateBundleInstallState` is proved not to, and over any run of requests the bundle
  has a state whenever it has a record (`Serve`).
- Uninstalling can leave UNINSTALL_START behind, from which no update and no uninstall starts. A bundle uninstall
  does so exactly when the mark cannot be saved (`ProcessBundleUninstall`); a module uninstall that succeeds does so
  exactly when the bundle's only module is removed while other users still have the bundle
  (`ProcessModuleUninstall`, `UninstallingForever`).
- A bundle whose directories could not be removed is forgotten all the same (`RemoveBundle`).
- Deleting a bundle during loading goes by its name, so an entry under another key stays and is deleted from memory again at
  every boot (`EntrySettled`, shown by `SaveEntries`).
- A timed event parked at the greatest representable time is never picked (`ChooseIsExact`).

## Model

| member | source | states |
|---|---|---|
| EventLists.UpperBound | libs/libeventhandler/src/event_queue.cpp:31-41 | the insertion point: everything before it is handled no later than the new event, the one at it strictly later |
| EventLists.InsertKeepsSorted | libs/libeventhandler/src/event_queue.cpp:31-41 | sorted insert keeps a list ordered by handle time |
| EventLists.InsertAddsOne | libs/libeventhandler/src/event_queue.cpp:31-41 | sorted insert adds exactly the one event (as multisets) |
| EventLists.RemoveIfKeepsSorted | libs/libeventhandler/src/event_queue.cpp:202-209 | filtered removal keeps the order and never brings a head forward |
| EventLists.RemoveIfSplits | libs/libeventhandler/src/event_queue.cpp:202-209 | what is kept and what is taken out make up the old list (as multisets) |
| EventQueues.ChooseIsExact | libs/libeventhandler/src/event_queue.cpp:62-74 | picking is exact and work-conserving: a timed list is chosen iff some timed head is due (and not parked at the end of time), the chosen head is due, and when none is due the recorded wake-up time is the least handle time over the three lists |
| EventQueues.PriorityDecides | libs/libeventhandler/src/event_queue.cpp:249-270 | priority decides a pick: among the lists whose head is due and strictly earlier than those above, the first with quota left is chosen, or the last one; a quota is used exactly when a later one is passed over, whose time is then the wake-up time |
| EventQueues.HighestDueGoesFirst | libs/libeventhandler/src/event_queue.cpp:249-270 | an event that is due and first of its priority, with quota left, is the next one handed out when nothing of a higher priority is due |
| EventQueues.GetExpiredIsExact | libs/libeventhandler/src/event_queue.cpp:249-315 | one pass, field by field: which event goes, which quotas restart and which one is charged, the wake-up time, the idle period and the idle head |
| EventQueues.EventQueue.constructor | libs/libeventhandler/src/event_queue.cpp:84-95 | a new queue is empty, idle since its creation, finished, and has no wake-up time |
| EventQueues.EventQueue.InsertEvent | libs/libeventhandler/src/event_queue.cpp:97-126 | insert puts the event into its list and touches no other, and reports a needed notification exactly for a timed event due before the recorded wake-up time |
| EventQueues.EventQueue.RemoveEvents | libs/libeventhandler/src/event_queue.cpp:202-209 | the loop over the three lists and the idle list removes the matching events of all four |
| EventQueues.EventQueue.HasInnerEvent | libs/libeventhandler/src/event_queue.cpp:235-247 | found iff a queued event, timed or idle, matches |
| EventQueues.EventQueue.FindQueueLocked | libs/libeventhandler/src/event_queue.cpp:249-270 | the scanning loop of the pick computes the choice that `ChooseIsExact` is about |
| EventQueues.EventQueue.ResetHigherLocked | libs/libeventhandler/src/event_queue.cpp:272-276 | the quota counters of the lists above the chosen one, and only those, restart |
| EventQueues.EventQueue.PickEventLocked | libs/libeventhandler/src/event_queue.cpp:249-283 | the pick hands out the chosen head, removes only it, charges the quota only when one was used, and hands out nothing iff nothing timed is due |
| EventQueues.EventQueue.GetExpiredEvent | libs/libeventhandler/src/event_queue.cpp:285-315 | one pass: timed events first, the start of the idle period, then the idle head if it may run |
| EventQueues.EventQueue.Prepare | libs/libeventhandler/src/event_queue.cpp:401-405 | the queue is open again |
| EventQueues.EventQueue.Finish | libs/libeventhandler/src/event_queue.cpp:407-412 | the queue is finished |
| EventQueues.InsertKeepsWellFormed | libs/libeventhandler/src/event_queue.cpp:97-126 | every list stays sorted and no counter passes its quota: insert |
| EventQueues.RemoveKeepsWellFormed | libs/libeventhandler/src/event_queue.cpp:202-209 | the same: remove |
| EventQueues.GetExpiredKeepsWellFormed | libs/libeventhandler/src/event_queue.cpp:249-315 | the same: a pick |
| EventRuns.LeaderBeatsAll | libs/libeventhandler/src/event_queue.cpp:249-270 | the leader (earliest handle time, ties to the higher priority, then to queue order) beats every other timed event |
| EventRuns.LeaderExists | libs/libeventhandler/src/event_queue.cpp:249-270 | whenever something timed is due there is such a leader |
| EventRuns.PickServesOrWaits | libs/libeventhandler/src/event_queue.cpp:249-283 | each pick that finds the leader due either hands it out or strictly lowers a lexicographic measure of the two quotas |
| EventRuns.PatienceBound | libs/libeventhandler/src/event_queue.cpp:249-283 | that measure is below (max0 + 1) * (max1 + 1) |
| EventRuns.ServedOncePatienceEnds | libs/libeventhandler/src/event_queue.cpp:249-283 | over any run the leader is handed out before the measure is used up |
| EventRuns.BoundedOvertaking | libs/libeventhandler/src/event_queue.cpp:249-283 | bounded overtaking: the leader is handed out within (max0 + 1) * (max1 + 1) picks if nothing that beats it arrives and it is not withdrawn |
| EventRuns.SamePriorityInOrder | libs/libeventhandler/src/event_queue.cpp:31-41 | over any run, of two events of one priority inserted in the order of their handle times (ties included) the first is handed out first |
| EventRuns.EventsAreConserved | libs/libeventhandler/src/event_queue.cpp:97-126 | over any run: queued + inserted = handed out + removed + still queued, as multisets |
| IdleRule.IdleEventsWaitForIdleTime | libs/libeventhandler/src/event_queue.cpp:285-315 | idle rule over all runs: an idle event is handed out iff nothing timed is due, it is due, and it was sent by the start of the current idle period, which lies after every busy pass |
| Timeouts.EpollSleep | libs/libeventhandler/src/event_handler_utils.h:43-66 | an epoll sleep is a whole number of milliseconds, not shorter than asked and less than one longer; beyond the 32-bit cap it is the cap |
| Timeouts.ConditionSleep | libs/libeventhandler/src/none_io_waiter.cpp:36-53 | a condition-variable sleep is as long as asked, but a year at most |
| EventLoop.NextKeepsInv | libs/libeventhandler/src/event_queue.cpp:317-331 | every step of the runner, the senders, the other readers and the owner keeps the invariant of the waiting protocol |
| EventLoop.ReachableInv | libs/libeventhandler/src/epoll_io_waiter.cpp:115-201 | every state of every interleaving satisfies it |
| EventLoop.NoLostWakeUp | libs/libeventhandler/src/event_queue.cpp:97-126 | no lost wake-up: a runner asleep with no wake-up on its way sleeps on the current waiter, the queue is not finished, and its sleep ends (up to millisecond rounding for epoll) no later than the handle time of every queued timed event; over all interleavings and both waiters |
| EventLoop.ListenerIndex | libs/libeventhandler/src/event_queue.cpp:339-399 | the listener map equals the descriptors registered with the current waiter and is empty under the other kind, through the switch to epoll and the reset after a failed wait |
| EventLoop.AddListenerIsExact | libs/libeventhandler/src/event_queue.cpp:317-399 | a descriptor is listened to after an addition exactly when it is valid, new and accepted by a listening waiter; the first one brings a fresh epoll waiter |
| EventLoop.RemoveListenersIsExact | libs/libeventhandler/src/event_queue.cpp:339-399 | a removal takes out the named descriptors and no others |
| EventLoop.SendWakesOnlyForEarlier | libs/libeventhandler/src/event_queue.cpp:97-126 | sending disturbs nobody unless the event is timed, due before the recorded wake-up time, and a thread waits |
| EventLoop.LoopIsExact | libs/libeventhandler/src/event_queue.cpp:317-331 | one turn of the loop: it leaves if finished, hands out what the queue gives, or sleeps, neither shorter nor longer than its wake-up time asks, up to the caps and the millisecond rounding |
| EventLoop.ReturnHasCause | libs/libeventhandler/src/epoll_io_waiter.cpp:115-201 | the runner returns from `epoll_wait` only for a descriptor, an error, a written event descriptor or its timeout, and an edge is reported once |
| EventLoop.OthersAreExact | libs/libeventhandler/src/event_queue.cpp:97-126 | what senders, other readers and the owner do to the queue, the owner and the clock |
| EventLoop.StepsAreOrderly | libs/libeventhandler/src/event_runner.cpp:300-348 | time does not go back, the runner leaves only when the queue is finished or its owner is gone, and nothing under the lock happens during a notification |
| EventLoop.RunnerCanStep | libs/libeventhandler/src/event_runner.cpp:300-348 | the runner can always go on, at the latest when its sleep is over or a wake-up has reached it |
| EventLoop.SendersCanStep | libs/libeventhandler/src/event_queue.cpp:97-126 | senders and other readers can step whenever no notification is under way |
| EventLoop.ListenersCanStep | libs/libeventhandler/src/event_queue.cpp:339-399 | listeners can be added and removed whenever no notification is under way |
| EventLoop.NobodyBlocks | libs/libeventhandler/src/epoll_io_waiter.cpp:115-201 | a notification begun can be finished, and time and the owner go on whatever the others do |
| EventLoop.StartOpensQueue | libs/libeventhandler/src/event_queue.cpp:401-405 | the runner opens the queue when it starts, and changes nothing else |
| EventLoop.StoppedRunnerAdvances | libs/libeventhandler/src/event_runner.cpp:300-348 | after the destructor has stopped the queue every runner step comes closer to leaving, and no other step moves it back |
| EventLoop.StoppedRunnerNotStuck | libs/libeventhandler/src/event_runner.cpp:300-348 | such a runner, or the sender about to wake it, can always step |
| EventLoop.StopIsNeverLost | libs/libeventhandler/src/event_runner.cpp:454-459 | shutdown: in every interleaving the runner leaves its loop within six steps of the destructor's stop and is never stuck before |
| ThreadCollector.NextKeepsInv | libs/libeventhandler/src/event_runner.cpp:57-267 | every step keeps each accepted thread in exactly one place (map, being joined, joined), every request of an accepted thread queued until that thread is taken out, and every pending reclaim or stop signalled to a waiting collector |
| ThreadCollector.RequestsAreNotLost | libs/libeventhandler/src/event_runner.cpp:180-200 | over any run a thread that asked to be reclaimed once deposited is queued, being joined or joined; a collector that waits before the stop has joined all of them |
| ThreadCollector.RequestsAreServed | libs/libeventhandler/src/event_runner.cpp:66-95 | before the stop a queued request has a collector that can go on, or a thread about to create one, and each collector step comes closer to an empty queue |
| ThreadCollector.StopClosesTheDoor | libs/libeventhandler/src/event_runner.cpp:66-119 | until the stop every deposit is accepted and every ending thread is queued, afterwards none |
| ThreadCollector.ThreadsCanStep | libs/libeventhandler/src/event_runner.cpp:66-119 | no thread waits for another to be deposited, to end or to begin the stop |
| ThreadCollector.StopJoinsEveryThread | libs/libeventhandler/src/event_runner.cpp:127-212 | each thread is joined at most once, and only after it has ended; when `Stop` has returned the map is empty, every accepted thread has been joined and no collector thread is left |
| ThreadCollector.StopAdvances | libs/libeventhandler/src/event_runner.cpp:127-212 | after `destroying_` is set each step of `Stop` or the collector lowers a measure that no other step raises, although the lock is dropped during joins |
| ThreadCollector.StopNotStuck | libs/libeventhandler/src/event_runner.cpp:136-212 | until `Stop` returns it or the collector can step, unless a join waits for a thread that has not ended |
| ThreadCollector.StopEnds | libs/libeventhandler/src/event_runner.cpp:136-212 | both together, for every interleaving |
| InnerEvents.ClearedIsClean | libs/libeventhandler/src/inner_event.cpp:186-214 | clearing an event leaves nothing of its use behind iff it was of one kind (a task without a saved object, or an event without a task name) |
| InnerEvents.InnerEventPool.Get | libs/libeventhandler/src/inner_event.cpp:70-105 | the last pooled event, or a new one when there is none; the count, and the peak that rises by 64 within 32 bits |
| InnerEvents.InnerEventPool.Put | libs/libeventhandler/src/inner_event.cpp:124-133 | putting one back: the count falls, the pool grows only below 64 |
| InnerEvents.PoolIsSound | libs/libeventhandler/src/inner_event.cpp:62-142 | over all runs: at most 64 pooled events, none carrying a waiter, owner, callback, name, trace or object of its past, and the count equals the events in use or being put back |
| InnerEvents.PutBackIsTakenNext | libs/libeventhandler/src/inner_event.cpp:70-133 | an event put back below the cap is the next one taken, and carries only what its new user gave it |
| InnerEvents.DropReleasesItsSender | libs/libeventhandler/src/inner_event.cpp:186-214 | a drop finishes the call of the sender waiting for the event, wakes it, and touches no other call |
| InnerEvents.EveryoneCanStep | libs/libeventhandler/src/inner_event.cpp:36-142 | users, senders and handlers are never blocked by the others |
| InnerEvents.SendersWaitForDrop | libs/libeventhandler/src/event_handler.cpp:100-135 | over all interleavings: a synchronous sender is released only after its event was dropped, dispatched or removed, and none sleeps through the notification |
| InnerEvents.DroppedSenderReturns | libs/libeventhandler/src/inner_event.cpp:36-53 | once the event is dropped the sender needs at most two steps of its own |
| InstallStates.NextStates | services/bundlemgr/src/bundle_data_mgr.cpp:1398-1432 | the state table by the state left: what may come next |
| BundleRecords.MergeReplacesOne | services/bundlemgr/src/inner_bundle_info.cpp:1567-1582 | an update of module information replaces the one package and keeps the others |
| BundleSlots.SoundRuns | services/bundlemgr/src/bundle_data_mgr.cpp:152-188 | over any run: no delete state is stored and no record is without a state, at every point, iff no failed install is ever reported for a bundle that is already recorded |
| BundleSlots.StepIsSound | services/bundlemgr/src/bundle_data_mgr.cpp:152-188 | the same for one step |
| BundleSlots.StartsAndDeletionsAlternate | services/bundlemgr/src/bundle_data_mgr.cpp:152-188 | accepted install starts and accepted deletions of a bundle strictly alternate |
| BundleDataManager.BundleDataMgr.UpdateBundleInstallState | services/bundlemgr/src/bundle_data_mgr.cpp:152-188 | accepted iff the edge exists; a delete state removes the entries and gives the id back; all other bundles untouched |
| BundleDataManager.BundleDataMgr.DeleteBundleInfo | services/bundlemgr/src/bundle_data_mgr.cpp:1442-1460 | the record goes and its id is given back, except for a failed install |
| BundleDataManager.BundleDataMgr.AddInnerBundleInfo | services/bundlemgr/src/bundle_data_mgr.cpp:190-219 | a record is added only in INSTALL_START, only when there is none, and only once stored |
| BundleDataManager.BundleDataMgr.AddNewModuleInfo | services/bundlemgr/src/bundle_data_mgr.cpp:250-284 | a module is added only in UPDATING_SUCCESS; the memory follows only a successful write; other bundles untouched |
| BundleDataManager.BundleDataMgr.RemoveModuleInfo | services/bundlemgr/src/bundle_data_mgr.cpp:286-314 | a module is removed only in UNINSTALL_START or ROLL_BACK; success is reported even when nothing was removed |
| BundleDataManager.BundleDataMgr.UpdateInnerBundleInfo | services/bundlemgr/src/bundle_data_mgr.cpp:362-406 | a module is replaced only in the three updating states; which update lifts the bundle version |
| BundleDataManager.BundleDataMgr.GetInnerBundleInfo | services/bundlemgr/src/bundle_data_mgr.cpp:1518-1535 | reading a record leaves it disabled |
| BundleDataManager.BundleDataMgr.EnableBundle | services/bundlemgr/src/bundle_data_mgr.cpp:1555-1571 | enables exactly that bundle |
| BundleDataManager.BundleDataMgr.AddInnerBundleUserInfo | services/bundlemgr/src/bundle_data_mgr.cpp:316-336 | exactly this user is added in memory, with the uid, even when the write fails |
| BundleDataManager.BundleDataMgr.RemoveInnerBundleUserInfo | services/bundlemgr/src/bundle_data_mgr.cpp:338-360 | exactly this user is removed in memory, even when the write fails |
| BundleDataManager.BundleDataMgr.GenerateBundleId | services/bundlemgr/src/bundle_data_mgr.cpp:1855-1891 | the loops from the base id to the greatest id in use compute the allocation rule |
| BundleDataManager.BundleDataMgr.GenerateUidAndGid | services/bundlemgr/src/bundle_data_mgr.cpp:1836-1853 | the uid encodes the user and the allocated id |
| BundleDataManager.BundleDataMgr.RecycleUidAndGid | services/bundlemgr/src/bundle_data_mgr.cpp:1958-1976 | the id decoded from one user's uid is removed, and nothing else |
| BundleDataManager.BundleDataMgr.RestoreUidAndGid | services/bundlemgr/src/bundle_data_mgr.cpp:1983-2006 | the rebuilt map holds every bundle with a user under the id its uids decode to, and nothing else |
| BundleIds.UidDecodes | services/bundlemgr/src/bundle_data_mgr.cpp:1849-1850 | a uid decodes to its bundle id |
| BundleIds.UidsDistinct | services/bundlemgr/src/bundle_data_mgr.cpp:1849-1850 | different (user, id) pairs have different uids |
| BundleIds.AllocationIsExact | services/bundlemgr/src/bundle_data_mgr.cpp:1855-1891 | in every reachable state a known name gets its id, a new one the least free id in range, and allocation fails iff every id of the range belongs to another name |
| BundleIds.AddAddsOneUser | services/bundlemgr/src/bundle_data_mgr.cpp:1836-1853 | a user joins those of the bundle with the uid of its id, and nobody else changes |
| BundleIds.RemoveTakesOneUser | services/bundlemgr/src/bundle_data_mgr.cpp:338-360 | removing a user takes that user only and frees no id |
| BundleIds.UidsAreSound | services/bundlemgr/src/bundle_data_mgr.cpp:1836-1891 | in every reachable state ids are in range and unique per name, all users of a bundle encode its one id, and no two users of any bundles share a uid |
| BundleIds.DeleteFreesExactly | services/bundlemgr/src/bundle_data_mgr.cpp:1958-1976 | deleting a bundle that has a user frees exactly its id; the id of a bundle without users stays taken |
| BundleIds.RestartAgrees | services/bundlemgr/src/bundle_data_mgr.cpp:1983-2006 | the map rebuilt at a restart agrees with the old one on every bundle that has a user, and holds nothing else |
| InstallRules.VersionsAfterInstall | services/bundlemgr/src/base_bundle_installer.cpp:1750-1850 | after an undisturbed successful request the bundle has the request's version, never a lower one; a higher version leaves exactly the packages of the request; all modules share that version iff the request passed by no stale module |
| InstallRules.VersionCheckIsExact | services/bundlemgr/src/base_bundle_installer.cpp:1750-1806 | the version check accepts iff the version is not lower and is equal, or the bundle is install-free or has no entry, or the request brings one; and the code of each refusal |
| InstallRules.SingleRequestAcceptedIff | services/bundlemgr/src/base_bundle_installer.cpp:294-423 | a request of one package for an installed bundle succeeds iff type and version fit, it is named, brings no second entry and does not repeat an installed package for a user who has it; and the code of each refusal |
| InstallRules.FirstInstallAcceptedIff | services/bundlemgr/src/base_bundle_installer.cpp:294-423 | a first install of distinct packages succeeds iff it has one entry at most and every package after the first has a name |
| InstallRules.UpgradeAccepted | services/bundlemgr/src/base_bundle_installer.cpp:1750-1806 | every replacement of installed packages of the right type and a compatible version succeeds |
| InstallRules.StaleNeeds | services/bundlemgr/src/base_bundle_installer.cpp:1161-1182 | passing by a stale module needs the normal flag, a user new to the bundle, a higher version and more than one package |
| InstallRules.StaleExample | services/bundlemgr/src/base_bundle_installer.cpp:1161-1182 | a request that leaves one module at version 1 in a bundle of version 2 |
| InstallRules.FoldSameContent | services/bundlemgr/src/base_bundle_installer.cpp:407-418 | what a request does depends on version, modules and type of the record only |
| InstallRules.UpdateFootprint | services/bundlemgr/src/base_bundle_installer.cpp:1194-1216 | a one-package update makes exactly the durable calls whose crashes are shown to be repaired |
| InstallRules.AddFootprint | services/bundlemgr/src/base_bundle_installer.cpp:1103-1143 | the same for a one-package addition |
| InstallRules.OnePackageRequestIsCrashConsistent | services/bundlemgr/src/base_bundle_installer.cpp:407-418 | cut anywhere, a one-package request for an installed bundle recovers to the old bundle or the new one, whichever branch it takes |
| Installer.BaseBundleInstaller.ProcessBundleInstall | services/bundlemgr/src/base_bundle_installer.cpp:439-536 | settled or untouched on every exit, and never a record without a state; success means the requested version and, undisturbed, exactly the modules of `InstallRules.Outcome`, the durable calls in order (a new user saved first, the packages, the renames, the removed lower versions) and the record they end with, for any user and any number of packages; undisturbed, the verdict is that function's; a failed request leaves the old modules when no save failed, and modules and users when a single call failed in a request that would have succeeded, but for a new user when a rename fails; a failed first install is kept iff its result and the number of its writes say that it stopped past an extraction, and with one package leaves nothing |
| Installer.BaseBundleInstaller.InstallWithGuards | services/bundlemgr/src/base_bundle_installer.cpp:499-536 | settled state on every exit after the guards are set, from any storable state; the verdict, the result, the undoing and the exact condition for keeping a failed first install; the durable calls and the record of every undisturbed success (`Performed`); the calls of a failed request of one package and its rollback, when at most one call failed, as `CrashLimits.RolledBackCalls` |
| Installer.PerformedOne | services/bundlemgr/src/base_bundle_installer.cpp:976-1030 | for a first install of one package the performed calls are those of `CrashRecovery.InstallCalls` |
| Installer.BaseBundleInstaller.ParseHapFiles | services/bundlemgr/src/base_bundle_installer.cpp:1590-1638 | more than one entry package is refused, and whether there is one is remembered |
| Installer.BaseBundleInstaller.CheckAppLabelInfo | services/bundlemgr/src/base_bundle_installer.cpp:1679-1733 | all packages must have the first one's version |
| Installer.BaseBundleInstaller.InnerProcessBundleInstall | services/bundlemgr/src/base_bundle_installer.cpp:294-423 | the branch for a new and for an installed bundle, the update loop and the user guard: what success records and what every failure leaves for the rollback; a first install that fails has entered UPDATING_SUCCESS iff its result and the number of its writes say so |
| Installer.CountTellsWhere | services/bundlemgr/src/base_bundle_installer.cpp:403-415 | the result and the number of records and packages of code written determine how many packages of a first install were done, and whether the one that failed had been extracted |
| Installer.BaseBundleInstaller.PrepareExisting | services/bundlemgr/src/base_bundle_installer.cpp:330-364 | type and version checks, the new user, and the packages already there |
| Installer.BaseBundleInstaller.AddUserToBundle | services/bundlemgr/src/base_bundle_installer.cpp:339-356 | the user is added and saved; if anything fails the guard takes the user out again, and state and modules stay |
| Installer.BaseBundleInstaller.ApplyHaps | services/bundlemgr/src/base_bundle_installer.cpp:384-423 | from the second reading of the record on: the loop, and the guard that takes a new user out again on failure |
| Installer.BaseBundleInstaller.UpdateHaps | services/bundlemgr/src/base_bundle_installer.cpp:403-415 | the loop computes the fold of the request, or stops at the first failing package with the rest untouched |
| Installer.BaseBundleInstaller.ProcessBundleUpdateStatus | services/bundlemgr/src/base_bundle_installer.cpp:1032-1077 | one package: state, record, verdict and durable calls, and nothing but its own module touched |
| Installer.BaseBundleInstaller.ProcessNewModuleInstall | services/bundlemgr/src/base_bundle_installer.cpp:1079-1148 | a new module: refused for a second entry, otherwise recorded after its code is on disk |
| Installer.BaseBundleInstaller.ProcessModuleUpdate | services/bundlemgr/src/base_bundle_installer.cpp:1150-1248 | an existing module: refused, user only, or replaced |
| Installer.BaseBundleInstaller.ProcessBundleInstallStatus | services/bundlemgr/src/base_bundle_installer.cpp:976-1030 | a first install: both guards; a failure leaves no record and, once its mark is saved, no state and no directory |
| Installer.BaseBundleInstaller.CheckHapModuleOrType | services/bundlemgr/src/base_bundle_installer.cpp:2037-2051 | all packages must be of the installed bundle's type |
| Installer.BaseBundleInstaller.CheckVersionCompatibility | services/bundlemgr/src/base_bundle_installer.cpp:1750-1806 | accepted iff the version is not lower and is equal, or the bundle is install-free or has no entry, or the request brings one; the code of each refusal, and when lower versions are to be removed |
| Installer.BaseBundleInstaller.RollBack | services/bundlemgr/src/base_bundle_installer.cpp:538-568 | the loop over the packages restores the module map of an updating bundle whenever none of its saves fails, and leaves a single package as it was when its save does; changes no module of a bundle that was rejected before; makes exactly the calls of `CrashLimits.RollbackCalls` for a single package; for a first install removes the bundle's directory and then asks for the failed-update state, whether or not it is accepted |
| Installer.BaseBundleInstaller.RollBackHap | services/bundlemgr/src/base_bundle_installer.cpp:594-609 | one package: unless a save fails, an updated module comes back and an added one goes; others stay |
| Installer.FailingThirdPackage | services/bundlemgr/src/base_bundle_installer.cpp:541-551 | three packages, the third failing before its extraction: the bundle is removed although the second was recorded |
| Installer.FailingSecondPackage | services/bundlemgr/src/base_bundle_installer.cpp:541-551 | two packages, the second failing after its extraction: the bundle stays with the first package only |
| Installer.BaseBundleInstaller.UninstallLowerVersionFeature | services/bundlemgr/src/base_bundle_installer.cpp:1808-1850 | undisturbed, exactly the packages of the request stay and the others are removed one by one, directory before record; whatever fails, no package of the request goes and no module before its directory; nothing is called when there is nothing to remove |
| Installer.BaseBundleInstaller.RenameModuleDirs | services/bundlemgr/src/base_bundle_installer.cpp:509-517 | one rename per package not flagged as user only, in order |
| Installer.BaseBundleInstaller.RunGuards | services/bundlemgr/src/base_bundle_installer.cpp:499-503 | enable, then INSTALL_SUCCESS: settled from each of the storable states |
| Installer.BaseBundleInstaller.RemoveBundle | services/bundlemgr/src/base_bundle_installer.cpp:955-974 | the bundle is forgotten even when its directories could not be removed, but success needs the code directory gone |
| Installer.BaseBundleInstaller.ProcessBundleUninstall | services/bundlemgr/src/base_bundle_installer.cpp:642-733 | result, state and durable calls; with several users exactly this user goes and the rest of the record stays; an installed bundle with one user is left in UNINSTALL_START iff the save of its mark failed, and settled otherwise; a failure forgets the bundle or leaves all of it but perhaps the user |
| Installer.BaseBundleInstaller.ProcessModuleUninstall | services/bundlemgr/src/base_bundle_installer.cpp:735-856 | result, state and durable calls; the only module of several users stays and exactly this user goes; after a success the bundle is settled iff the module was not the only one of a bundle that other users still have; in general that case stays in UNINSTALL_START as soon as its mark is saved, and every other way out is settled |
| Installer.UninstallingForever | services/bundlemgr/src/base_bundle_installer.cpp:790-856 | the bundle left in UNINSTALL_START accepts neither an update nor another uninstall |
| Installer.BaseBundleInstaller.Serve | services/bundlemgr/src/base_bundle_installer.cpp:439-856 | over any run of install and uninstall requests, whatever fails, a record always has a storable state; every success has done what was asked, every request of a settled bundle gets the verdict it deserves when nothing else fails, an install settles the bundle or leaves its entries alone, and an uninstall of a settled bundle settles it or leaves UNINSTALL_START |
| CrashRecovery.BundleUninstallIsCrashConsistent | services/bundlemgr/src/bundle_exception_handler.cpp:40-89 | cut anywhere, a bundle uninstall recovers to the old bundle or to none, and a second recovery changes nothing; from any bundle at rest, one repaired from an earlier power cut included |
| CrashRecovery.ModuleUninstallIsCrashConsistent | services/bundlemgr/src/bundle_exception_handler.cpp:40-89 | the same for a module uninstall, of the only module or of one of several |
| CrashRecovery.InstallIsCrashConsistent | services/bundlemgr/src/bundle_exception_handler.cpp:40-89 | the same for a first install of one package |
| CrashRecovery.InstallClearsLeftovers | services/bundlemgr/src/installd/installd_host_impl.cpp:50-65 | a first install over directories an uninstall left behind ends with exactly its own code, and a cut recovers to that or to no trace of the bundle |
| DurableCalls.HalfwayIsPossible | services/bundlemgr/src/installd/installd_host_impl.cpp:50-100 | which half-done states a power cut may leave: any part of a removal, an unfinished extraction, both sides of a rename |
| CrashRecovery.UpdateIsCrashConsistent | services/bundlemgr/src/bundle_exception_handler.cpp:40-89 | the same for a module update, with the staged directory renamed or removed |
| CrashRecovery.AddIsCrashConsistent | services/bundlemgr/src/bundle_exception_handler.cpp:40-89 | the same for a module addition |
| CrashRecovery.LoadedIsClosed | services/bundlemgr/src/bundle_exception_handler.cpp:40-89 | whatever a boot loads carries a mark under which no operation is under way |
| CrashRecovery.RunsAreAtomic | services/bundlemgr/src/bundle_exception_handler.cpp:40-89 | over any run of installs, updates, additions, uninstalls, power cuts in them and boots, each operation is all or nothing and the bundle is at rest again: the disk holds exactly the code of the record the next boot loads |
| CrashLimits.RequestIsCrashConsistentIff | services/bundlemgr/src/base_bundle_installer.cpp:1808-1850 | exact condition: a request of one package for an installed bundle is crash consistent at every cut iff its version is not higher or the bundle has no other module |
| CrashLimits.RolledBackIsConsistentIff | services/bundlemgr/src/base_bundle_installer.cpp:538-609 | exact condition: a failed update or addition of one package, with its rollback, is crash consistent at every cut iff the new record had not been saved; whether it failed before its mark, at the extraction, at the record or later |
| CrashLimits.RollbackWindow | services/bundlemgr/src/base_bundle_installer.cpp:594-609 | the window of a recorded update: a cut while its staged directory is removed boots with a half-deleted directory in place of the module's code |
| CrashLimits.AddRollbackWindow | services/bundlemgr/src/base_bundle_installer.cpp:603-608 | the window of a recorded addition: a cut after its directory is removed boots with a record of a module that has no code |
| CrashLimits.FailedRenameAgreesIff | services/bundlemgr/src/base_bundle_installer.cpp:509-519 | after a failed rename and the rollback of all packages, updated or added, the disk agrees with the restored record iff every installed package renamed before is reinstalled at the version it had |
| Paths.RootsAgree | services/bundlemgr/src/bundle_exception_handler.cpp:48 | the directory recovery derives from the constant is the installer's iff the constant ends with a separator |
| CrashRecovery.DerivedRecoveryIsConsistentIff | services/bundlemgr/src/bundle_exception_handler.cpp:46-50 | with the directory the code derives, every cut of an operation is consistent iff the constant ends with a separator; for each of install, update, addition, module uninstall and bundle uninstall (a bundle without modules has nothing on disk to repair) |
| CrashRecovery.UpdateWindowIsNotRepaired | interfaces/inner_api/appexecfwk_base/include/bundle_constants.h:63 | with the constant as it stands, a crash between saving an updated record and renaming its code boots with the new record over the old code |
| ExceptionHandler.RepairIsCrashConsistent | services/bundlemgr/src/bundle_exception_handler.cpp:40-116 | a repair cut by another crash at any step is completed by the next, from any state whatsoever |
| ExceptionHandler.BundleExceptionHandler.HandleInvalidBundle | services/bundlemgr/src/bundle_exception_handler.cpp:40-89 | undisturbed it is the recovery function; when calls fail, the next boot still ends where an undisturbed repair would have, the stored record is deleted or left alone, and a kept record is unchanged, or repaired with its directories as it wants them |
| ExceptionHandler.BundleExceptionHandler.FinishModuleRemoval | services/bundlemgr/src/bundle_exception_handler.cpp:71-82 | the fall-through from removing the whole bundle to removing the module |
| StorageLoad.RecoverSeesItsPart | services/bundlemgr/src/bundle_data_storage_database.cpp:75-77 | recovering one of many bundles gives what recovering it alone would |
| StorageLoad.RecoverSparesOthers | services/bundlemgr/src/bundle_data_storage_database.cpp:75-77 | and leaves the directories of every other bundle as they were |
| StorageLoad.BundleDataStorageDatabase.SaveEntries | services/bundlemgr/src/bundle_data_storage_database.cpp:48-93 | after the loading loop memory holds exactly the bundles recovery keeps, each directory is repaired, corrupt and deleted entries are gone, and every kept bundle is stored under its own name; a bundle to be deleted goes only if it was stored under its name |
| StorageLoad.BundleDataStorageDatabase.UpdateDataBase | services/bundlemgr/src/bundle_data_storage_database.cpp:268-277 | the re-keying loop moves each such entry to its name and touches no other |
| StorageLoad.SecondLoadAgrees | services/bundlemgr/src/bundle_data_storage_database.cpp:48-93 | a second boot loads from what the first one left exactly the same bundles |

## Left out

- StorageLoad.BundleDataStorageDatabase.SaveEntries: stated for stores in which no two entries carry one bundle name and none sits under the name of another, and with recovery's calls succeeding; the order of the entries decides otherwise. Recovery is taken to work in the installer's own directory (`RootOf`), which is not the one the code derives.
- StorageLoad.SecondLoadAgrees: the same assumption about the directory.
- EventLoop.ListenerIndex: removing a descriptor from the epoll set is taken to succeed; the code only logs a failure and drops the listener all the same.
- CrashLimits.FailedRenameAgreesIff: that a request of several packages makes these calls is a hypothesis of the lemma; the installer's contract gives the calls of a failed request for one package only.
- A failed call is taken to leave storage and directories as they were; a failed extraction may leave part of a directory behind.
- Installer.BaseBundleInstaller.CheckAppLabelInfo: the comparisons of labels other than the version are only calls that may fail.
- StorageLoad.BundleDataStorageDatabase.UpdateDataBase: the saves and deletions succeed.
- Data directories, access tokens, uri prefixes, signatures, label checks other than the version, the killing of processes, and sandbox applications: their calls appear only as calls that may fail, and no contract says that they are made.
- Cloned bundles: they add records without an install state.
- Singleton changes: whether a bundle's singleton flag fits the user appears as a check that may fail; the clean-up after a change of the flag is not modelled.
- Crash consistency of requests with several packages: there is one mark per bundle, overwritten by each.
- Installer.BaseBundleInstaller.RollBack: claims the module map only; the bundle-level version is restored only when the branch that updates a module would lift it.
- Concurrent installer operations on one bundle: one operation at a time is assumed; the per-bundle lock covers single readings of the record only.
- BundleIds.UidsDistinct: uids are unbounded integers here; the product of a user number above 10737 and the user range does not fit the 32 bits the code uses.
- Installer.BaseBundleInstaller.AddUserToBundle: the uid is any number here; which one is the subject of `BundleIds`.
- InnerEvents.InnerEventPool.Get: the log line at a new peak is not modelled.
- Timers, dumps, listeners' callbacks and traces of the event loop: no property here depends on them.
- Stops of a runner other than through its owner's destructor: the preparation of the loop may undo an earlier finish.
- Liveness of idle events: inserting one does not wake the runner, by design.
- `SendEvent`'s handle-time arithmetic and the nesting of `DistributeEvent`: they would add easy members only.
- Ability and extension queries, IPC, the command line and package parsing: outside the two cores.
