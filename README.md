# Mobile Manager reservation engine in Dafny

Mobile Manager keeps a pool of Android and iOS devices that tests can
reserve. This project models its device-reservation engine:

- **Queue sweep.** Clients queue a reservation that lists the devices they
  want: by id, by type, by name, or by property values that may contain `*`
  and `?` wildcards. A background service sweeps the queue. For each queued
  reservation it:
  - runs an eligibility pre-check when more than one device is requested;
  - locks a matching device for every request, using the Appium, XCUITest or
    Manual procedure of the reservation's type;
  - then either turns the reservation into an applied reservation and removes
    it from the queue, or unlocks what it locked.
- **Release.** Deleting an applied reservation unlocks its devices one by one.
- **Health reconciler.** It moves devices between Online, Offline, Locked and
  LockedOffline according to which devices are connected.
- **Controllers.** Around these sit the validation guards of the REST
  controllers, the Selenium grid configuration text for a device, the path of
  a device's Appium log, and the defaults of a new reservation.

The model follows the code. In several places the code does something other
than the documented design promises, and the model proves what the code does:

- **Only the last property counts.** The property filter of
  `FindMatchingDevice` overwrites its flag for every requested property, so
  only the last one decides whether a device matches
  (`Matcher.OnlyLastPropertyCounts`, `Matcher.LastPropertyFilterIsWeakerThanAll`).
- **Held devices are never locked.** The eligibility pre-check marks every
  device it finds unavailable. It gives them back only when the reservation is
  ineligible. The lock loop afterwards only locks devices that the store
  reports as available. So a reservation that requests several devices by id
  and passes the pre-check is never applied: its devices stay unavailable and
  the reservation stays queued (`ReservationService.IdReservationsAreNeverApplied`).
- **Appium release can leave a device Locked.** When the Appium session stop
  answers false, the unlock returns a copy marked available but stores nothing
  (`DeviceUtils.UnlockAppium`, `AppliedController.AppiumReleaseWithoutStopChangesNothing`).
- **The unlock check never fires.** The "failed to unlock" check of
  `UnlockDeviceByReservationType` tests the returned copy, which is always
  available. An unlock therefore fails only for an id that is not stored
  (`DeviceUtils.UnlockFailsOnlyForUnknownIds`).
- **The applied list doubles.** On success, the sweep's local list of applied
  reservations is extended with itself (`AddRange` of its own contents). The
  sweep's answer, whether anything was applied, is unaffected
  (`ReservationService.SweepReportsCreation`).
- **Device updates have no lock check.** `DevicesController.Update` has no
  availability check, so it can make a Locked device available
  (`DevicesController.UpdateCanUnlockALockedDevice`).

Modelling decisions:

- **The store.** One class, `Store.Store`, holds three collections: the device
  pool (`seq<Device>`, in the order `GetDevices` returns), the reservation
  queue, and the applied reservations. It stands in for the REST client and
  the EF repositories, which are not part of this model. Reads and writes are
  its methods. The functions `FindDevice`, `ReplaceDevice` and their kin give
  the meaning of those methods.
- **The environment.** Everything the core asks of the world outside is a
  value of `Store.Env`: the shuffle of `SelectRandomDevice`, the Appium
  session start and stop, and whether creating an applied reservation raises.
  Every lemma holds for every such environment.
- **Exceptions.** An exception is a `Failure` value carried in a `Result` or
  `Outcome`.
- **Nulls.** A null reference is `None`. A null string that the source treats
  like an empty one is `""`.

## Model

| member | source | states |
|---|---|---|
| Store.FindDevice | MobileManager/Utils/DeviceUtils.cs:117-121 | GetDevice: a found device is stored under that id; null exactly when no stored device has the id |
| Store.ReplaceDevice | MobileManager/Utils/DeviceUtils.cs:107 | UpdateDevice overwrites the record with the device's id and no other, keeping the pool's length and order |
| Store.RemoveDevice | MobileManager/Controllers/DevicesController.cs:322 | Remove(id) keeps exactly the records with other ids |
| Store.FindAfterReplace | MobileManager/Utils/DeviceUtils.cs:107 | after persisting d, reading d's id gives d (if it was stored) and every other id reads as before |
| Store.FindUnique | MobileManager/Utils/DeviceUtils.cs:117 | with unique ids, reading a stored device's id gives that very record |
| Store.ReplaceKeepsUniqueIds | MobileManager/Utils/DeviceUtils.cs:107 | persisting a device keeps the ids unique |
| Store.FindReservation | MobileManager/Controllers/ReservationsQueueController.cs:192 | a found reservation is queued under that id; null exactly when none is |
| Store.ReplaceReservation | MobileManager/Utils/ReservationUtils.cs:148 | UpdateReservation overwrites the queued record with that id and no other |
| Store.RemoveReservation | MobileManager/Services/ReservationService.cs:175 | DeleteReservation keeps exactly the queued records with other ids |
| Store.FindApplied | MobileManager/Controllers/ReservationsAppliedController.cs:146 | a found applied reservation has that id; null exactly when none has |
| Store.RemoveApplied | MobileManager/Controllers/ReservationsAppliedController.cs:170 | Remove(id) keeps exactly the applied records with other ids |
| Store.Store.GetDevice | MobileManager/Utils/DeviceUtils.cs:117 | returns the stored device with that id, or null |
| Store.Store.GetDevices | MobileManager/Utils/DeviceUtils.cs:231 | returns the device pool in order |
| Store.Store.UpdateDevice | MobileManager/Utils/DeviceUtils.cs:107 | persists the device in its id's place, returns it, changes nothing else |
| Store.Store.AddDevice | MobileManager/Controllers/DevicesController.cs:235 | appends the device, changes nothing else |
| Store.Store.RemoveDeviceById | MobileManager/Controllers/DevicesController.cs:322 | removes the records with that id, changes nothing else |
| Store.Store.GetReservations | MobileManager/Services/ReservationService.cs:195 | returns the queue in order |
| Store.Store.GetReservation | MobileManager/Controllers/ReservationsQueueController.cs:192 | returns the queued reservation with that id, or null |
| Store.Store.AddReservation | MobileManager/Controllers/ReservationsQueueController.cs:131 | appends to the queue, changes nothing else |
| Store.Store.UpdateReservation | MobileManager/Utils/ReservationUtils.cs:148 | overwrites the queued record with that id, changes nothing else |
| Store.Store.DeleteReservation | MobileManager/Services/ReservationService.cs:175 | removes the queued records with that id, changes nothing else |
| Store.Store.GetApplied | MobileManager/Controllers/ReservationsAppliedController.cs:146 | returns the applied reservation with that id, or null |
| Store.Store.AddApplied | MobileManager/Controllers/ReservationsAppliedController.cs:119 | appends to the applied records, changes nothing else |
| Store.Store.DeleteApplied | MobileManager/Controllers/ReservationsAppliedController.cs:170 | removes the applied records with that id, changes nothing else |
| Store.Store.ApplyReservation | MobileManager/Utils/ReservationUtils.cs:74 | when the call raises, nothing is stored and the failure is returned; otherwise the record is appended to the applied records and returned |
| Models.Snapshot | MobileManager/Utils/ReservationUtils.cs:140-141 | the reserved-device snapshot carries the device's id and Appium endpoint |
| Models.HexChar | MobileManager.Models/Reservations/Reservation.cs:22 | every GUID digit prints as a lower-case hexadecimal character |
| Models.HexString | MobileManager.Models/Reservations/Reservation.cs:22 | the "n" format of a GUID: one lower-case hex character per digit, in order |
| Models.NewReservation | MobileManager.Models/Reservations/Reservation.cs:20-24 | a new reservation's id is the first 24 characters of the GUID's hex string (24 lower-case hex characters); DateCreated is the clock reading, FailedToApply is 0, the type is Appium, RequestedDevices is null |
| Models.HexStringInjective | MobileManager.Models/Reservations/Reservation.cs:22 | two digit strings of equal length print the same exactly when they are equal |
| Models.ReservationIdsCollideOnPrefix | MobileManager.Models/Reservations/Reservation.cs:22 | two new reservations get the same id exactly when their GUIDs agree on the first 24 digits |
| Glob.GlobMatch | MobileManager/Utils/DeviceUtils.cs:353-356 | the anchored pattern of WildCardToRegular read strictly: `?` is one character other than a line feed, `*` any run of them, every other character stands for itself. Its properties are stated by Glob.LiteralPatternMatchesItselfOnly, Glob.StarMatchesLinesOnly and Glob.GlobConcat |
| Glob.IsWildCardMatch | MobileManager/Utils/DeviceUtils.cs:262-263 | Regex.IsMatch of a device value against the translated pattern: the strict match, or the strict match of the value without a final line feed (the `$` rule). Its properties are stated by Glob.SingleLineMatch and Glob.TrailingLineFeedExample |
| Glob.LiteralPatternMatchesItselfOnly | MobileManager/Utils/DeviceUtils.cs:353-356 | a value without `*` or `?` matches exactly itself |
| Glob.StarMatchesLinesOnly | MobileManager/Utils/DeviceUtils.cs:353-356 | `*` matches exactly the values without a line feed (the regex `.`) |
| Glob.GlobConcat | MobileManager/Utils/DeviceUtils.cs:353-356 | matches compose: pattern halves that match input halves match their concatenation |
| Glob.SingleLineMatch | MobileManager/Utils/DeviceUtils.cs:262-263 | for a value without line feeds, Regex.IsMatch against the anchored pattern is the plain glob match |
| Glob.VersionPatternExample | MobileManager/Utils/DeviceUtils.cs:262-263 | "13.*" matches "13.4" and not "12.9"; the "." is literal |
| Glob.TrailingLineFeedExample | MobileManager/Utils/DeviceUtils.cs:262-263 | the closing `$` lets "a?" match "ab\n", which the glob alone does not |
| Matcher.Where | MobileManager/Utils/DeviceUtils.cs:232-233 | the filter keeps exactly the elements that satisfy the predicate, and no more than the input |
| Matcher.WhereEmpty | MobileManager/Utils/DeviceUtils.cs:232-234 | the filtered list is empty exactly when no element satisfies the predicate |
| Matcher.SelectRandomDevice | MobileManager/Utils/DeviceUtils.cs:295-298 | the pick is an element of the list; null exactly when the list is empty |
| Matcher.EveryDeviceCanBeSelected | MobileManager/Utils/DeviceUtils.cs:295-298 | every element of the list is picked for some shuffle |
| Matcher.PropertyMatches | MobileManager/Utils/DeviceUtils.cs:252-276 | one requested property: a value with `*` or `?` needs a same-key device value that IsWildCardMatch accepts, any other value a same-key device value equal to it. Matcher.WildcardPropertyMatches proves the source loop computes it |
| Matcher.Accepts | MobileManager/Utils/DeviceUtils.cs:222-288 | the precedence of the request fields: id, else a specified type, else a non-empty name, else the last requested property. Matcher.MatchDevice and QueueController.UnmatchedIffNoDeviceAccepted are stated in terms of it |
| Matcher.MatchDevice | MobileManager/Utils/DeviceUtils.cs:222-288 | precedence id, type, name, properties: an id request returns the stored record as is, whatever its availability; otherwise a result is a stored device the request accepts, and null exactly when no stored device is accepted |
| Matcher.MatchFoundIndependentOfShuffle | MobileManager/Utils/DeviceUtils.cs:229-298 | whether a device is found does not depend on the shuffle |
| Matcher.OnlyLastPropertyCounts | MobileManager/Utils/DeviceUtils.cs:250-282 | a device passes the property filter exactly when the last requested property matches, whatever the earlier ones |
| Matcher.LastPropertyFilterIsWeakerThanAll | MobileManager/Utils/DeviceUtils.cs:250-282 | every device matching all requested properties passes, and some device that fails an earlier property also passes |
| Matcher.WildcardPropertyMatches | MobileManager/Utils/DeviceUtils.cs:255-270 | the inner loop finds a same-key property whose value matches the wildcard pattern exactly when the property predicate holds |
| Matcher.DeviceMatchesProperties | MobileManager/Utils/DeviceUtils.cs:250-282 | the flag after the loop over requested properties is the last-property filter |
| Matcher.FindMatchingDevice | MobileManager/Utils/DeviceUtils.cs:222-288 | returns MatchDevice over the stored pool and the environment's shuffle |
| DeviceUtils.LockPlain | MobileManager/Utils/DeviceUtils.cs:76-128 | XCUITest/Manual lock: an unknown id raises KeyNotFound and changes nothing; otherwise the device is stored and returned unavailable and Locked; other ids read as before |
| DeviceUtils.UnlockPlain | MobileManager/Utils/DeviceUtils.cs:161-213 | XCUITest/Manual unlock: an unknown id raises KeyNotFound; otherwise the device is stored and returned available and Offline; other ids read as before |
| DeviceUtils.UnlockAppium | MobileManager/Utils/DeviceUtils.cs:138-152 | the returned device is available; when the session stop says false nothing is stored; otherwise the device is stored available, Offline, with an empty endpoint |
| DeviceUtils.LockAppium | MobileManager/Utils/DeviceUtils.cs:49-67 | unknown id: KeyNotFound and no change; a stored device whose session starts is locked (Ok), stored unavailable, Locked, with the started session's endpoint; a failed session start runs the Appium unlock and raises; other ids read as before |
| DeviceUtils.FindAfterReplaceAll | MobileManager/Utils/DeviceUtils.cs:107 | after persisting a device, every id other than its own reads as before |
| DeviceUtils.LockByType | MobileManager/Utils/ReservationUtils.cs:105-128 | the lock fails exactly for an unknown id (KeyNotFound, no change) or for an Appium lock whose session does not start; a successful lock of any type returns the device with that id, unavailable and Locked, as stored; ids and other devices are unchanged |
| DeviceUtils.UnlockByType | MobileManager/Utils/DeviceUtils.cs:421-462 | a passing unlock found the device; unless it is an Appium unlock whose stop said false, the device is stored available and Offline; in that case nothing changes; ids are unchanged |
| DeviceUtils.FailedLockLeavesDeviceFree | MobileManager/Utils/DeviceUtils.cs:55-64 | after a failed lock the device is either as before or released by the Appium unlock |
| DeviceUtils.UnlockPlainIdempotent | MobileManager/Utils/DeviceUtils.cs:161-213 | unlocking twice returns and stores the same as unlocking once |
| DeviceUtils.UnlockAppiumIdempotent | MobileManager/Utils/DeviceUtils.cs:138-152 | the Appium unlock is idempotent whatever the session stop answers |
| DeviceUtils.UnlockFailsOnlyForUnknownIds | MobileManager/Utils/DeviceUtils.cs:421-462 | the unlock by type fails exactly when the id is not stored, and then with KeyNotFound and no change: the availability check never fires |
| DeviceUtils.ReplaceKeepsConsistent | MobileManager/Utils/DeviceUtils.cs:107 | persisting a consistent device keeps every device consistent (Locked or LockedOffline implies unavailable) |
| DeviceUtils.LockUnlockKeepConsistent | MobileManager/Utils/DeviceUtils.cs:49-213 | locks and unlocks of every type keep every stored device consistent |
| DeviceUtils.SetDeviceAvailabilityToFalse | MobileManager/Utils/DeviceUtils.cs:113-128 | unknown id raises KeyNotFound; otherwise returns the stored record with Available set to false; persists nothing (the write comes later, in SetDeviceStatusToLocked) |
| DeviceUtils.SetDeviceAvailabilityToTrue | MobileManager/Utils/DeviceUtils.cs:198-213 | unknown id raises KeyNotFound; otherwise returns the stored record with Available set to true; persists nothing (the write comes later, in SetDeviceStatusToOffline) |
| DeviceUtils.SetDeviceStatusToLocked | MobileManager/Utils/DeviceUtils.cs:101-111 | the device is persisted with status Locked |
| DeviceUtils.SetDeviceStatusToOffline | MobileManager/Utils/DeviceUtils.cs:186-196 | the device is persisted with status Offline |
| DeviceUtils.LockDeviceAppium | MobileManager/Utils/DeviceUtils.cs:49-67 | result and new device pool are those of LockAppium; queue and applied records are untouched |
| DeviceUtils.LockDeviceXcuiTest | MobileManager/Utils/DeviceUtils.cs:76-83 | result and new device pool are those of LockPlain; nothing else changes |
| DeviceUtils.LockDeviceManual | MobileManager/Utils/DeviceUtils.cs:92-99 | result and new device pool are those of LockPlain; nothing else changes |
| DeviceUtils.UnlockDeviceAppium | MobileManager/Utils/DeviceUtils.cs:138-152 | result and new device pool are those of UnlockAppium; nothing else changes |
| DeviceUtils.UnlockDeviceXcuiTest | MobileManager/Utils/DeviceUtils.cs:161-168 | result and new device pool are those of UnlockPlain; nothing else changes |
| DeviceUtils.UnlockDeviceManual | MobileManager/Utils/DeviceUtils.cs:177-184 | result and new device pool are those of UnlockPlain; nothing else changes |
| DeviceUtils.UnlockDeviceByReservationType | MobileManager/Utils/DeviceUtils.cs:421-462 | outcome and new device pool are those of UnlockByType; nothing else changes |
| DeviceUtils.Reconcile | MobileManager/Utils/DeviceUtils.cs:381-413 | the transition table: unreachable and neither Locked nor LockedOffline becomes Offline and unavailable; unreachable Locked becomes LockedOffline; reachable LockedOffline becomes Locked and unavailable; reachable Offline becomes Online and available; any other case is not written back. Its properties are stated by DeviceUtils.ReconcileProperties |
| DeviceUtils.Reconciled | MobileManager/Utils/DeviceUtils.cs:374-413 | the record a device has after the check: its transition for a device of the checked type, itself otherwise. DeviceUtils.HealthCheckPointwise states that every device ends so |
| DeviceUtils.ReconcileProperties | MobileManager/Utils/DeviceUtils.cs:379-413 | after reconciliation the status is Offline or LockedOffline exactly when the device is unreachable; a locked device (Locked or LockedOffline) stays locked and an unlocked one unlocked; a device becomes available only when it comes back reachable from Offline; a record is written back exactly in the four transition cases; only status and availability change; consistency is kept, an unreachable consistent device is unavailable, and a second pass changes nothing |
| DeviceUtils.HealthStep | MobileManager/Utils/DeviceUtils.cs:379-413 | one iteration of the foreach: a device of the checked type whose transition applies is written back. DeviceUtils.HealthStepAt states its effect |
| DeviceUtils.HealthStepAt | MobileManager/Utils/DeviceUtils.cs:379-413 | one iteration writes the reconciled record in that device's place and no other |
| DeviceUtils.HealthLoop | MobileManager/Utils/DeviceUtils.cs:379-414 | the foreach over the snapshot: each device of the checked type whose transition applies is written back, in snapshot order. Its effect is stated by DeviceUtils.HealthLoopFrom, DeviceUtils.HealthCheckPointwise and DeviceUtils.HealthLoopKeepsConsistent |
| DeviceUtils.HealthLoopFrom | MobileManager/Utils/DeviceUtils.cs:379-414 | the rest of the loop gives every remaining device its reconciled record and leaves the processed ones alone |
| DeviceUtils.HealthCheckPointwise | MobileManager/Utils/DeviceUtils.cs:367-415 | with unique ids, each device of the checked type ends as its transition says and every other device is unchanged |
| DeviceUtils.HealthLoopKeepsConsistent | MobileManager/Utils/DeviceUtils.cs:367-415 | the reconciler keeps every stored device consistent |
| DeviceUtils.CheckAllDevicesInDevicePoolAreOnline | MobileManager/Utils/DeviceUtils.cs:367-415 | the new device pool is the health loop over the snapshot read at the start; queue and applied records untouched |
| ReservationUtils.HoldLoop | MobileManager/Utils/ReservationUtils.cs:204-227 | the pre-check loop: a request with no match or an unavailable match makes the reservation ineligible; an available match is held by persisting it unavailable. Its effect is stated by ReservationUtils.HoldLoopKeepsHolding, ReservationService.HoldLoopTakesIds and ReservationService.HoldLoopKeepsTaken |
| ReservationUtils.ReleaseHolds | MobileManager/Utils/ReservationUtils.cs:229-240 | after an ineligible verdict every held device is persisted available again, in held order. Its effect is stated by ReservationUtils.ReleaseHoldsPointwise |
| ReservationUtils.CheckEligibility | MobileManager/Utils/ReservationUtils.cs:196-243 | IsReservationEligible: the verdict of the loop; an ineligible verdict releases the holds, an eligible one keeps them. Its effect is stated by ReservationUtils.EligibilityCheckEffect and ReservationService.EligibilityKeepsInvariant |
| ReservationUtils.LastWithId | MobileManager/Utils/ReservationUtils.cs:229-240 | the last held device with that id, if any, is held and carries that id |
| ReservationUtils.LastWithIdAppend | MobileManager/Utils/ReservationUtils.cs:229-240 | holding one more device makes it the last with its id |
| ReservationUtils.ReleaseHoldsPointwise | MobileManager/Utils/ReservationUtils.cs:229-240 | the release writes back, in each device's place, the last held copy marked available |
| ReservationUtils.HoldStep | MobileManager/Utils/ReservationUtils.cs:214-225 | taking an available device keeps the relation between the original records, the current ones and the held list |
| ReservationUtils.HoldLoopKeepsHolding | MobileManager/Utils/ReservationUtils.cs:204-227 | the whole pre-check loop keeps that relation |
| ReservationUtils.EligibilityCheckEffect | MobileManager/Utils/ReservationUtils.cs:196-243 | with unique ids, the pre-check changes a device only by taking an available one (available becomes false); an ineligible reservation leaves the pool exactly as it was |
| ReservationUtils.IsReservationEligible | MobileManager/Utils/ReservationUtils.cs:196-243 | verdict and new device pool are those of CheckEligibility; queue and applied records untouched |
| ReservationUtils.IsDeviceAvailable | MobileManager/Utils/ReservationUtils.cs:245-249 | true exactly when a fresh read of the device says it is available |
| ReservationUtils.AfterLock | MobileManager/Utils/ReservationUtils.cs:130-194 | a raising lock increments FailedToApply by one, writes the reservation back and reserves nothing; a returned lock leaves reservation and queue alone; applied records are never touched |
| ReservationUtils.ReserveLoop | MobileManager/Utils/ReservationUtils.cs:80-103 | ReserveAllRequestedDevices: for each request in order, an unmatched one is skipped and a matched one is locked only after a fresh read says it is available. Its effect is stated by ReservationUtils.ReserveLoopProperties and ReservationUtils.ReserveStepKeepsHeldLocked |
| ReservationUtils.StoredAvailable | MobileManager/Utils/ReservationUtils.cs:245-249 | the fresh read of IsDeviceAvailable: the stored record with that id is available. ReservationUtils.IsDeviceAvailable returns it |
| ReservationUtils.ReserveStep | MobileManager/Utils/ReservationUtils.cs:82-102 | one request: no match changes nothing; a match is locked by the reservation type only when the fresh read says available. ReservationUtils.ReserveStepKeepsHeldLocked states what it preserves |
| ReservationUtils.ReserveStepKeepsHeldLocked | MobileManager/Utils/ReservationUtils.cs:86-101 | one request keeps every reserved device stored Locked, unavailable and distinct |
| ReservationUtils.ReserveLoopProperties | MobileManager/Utils/ReservationUtils.cs:80-103 | over all requests: reserved devices stay locked and distinct, the list keeps its prefix and grows by at most one per request, the reservation changes only in FailedToApply, which never decreases |
| ReservationUtils.LockDeviceWithAppiumEndpoint | MobileManager/Utils/ReservationUtils.cs:130-150 | new state, reservation and reserved list are AfterLock of the Appium lock |
| ReservationUtils.LockDeviceWithXcuiTest | MobileManager/Utils/ReservationUtils.cs:152-172 | new state, reservation and reserved list are AfterLock of the XCUITest lock |
| ReservationUtils.LockDeviceWithManual | MobileManager/Utils/ReservationUtils.cs:174-194 | new state, reservation and reserved list are AfterLock of the Manual lock |
| ReservationUtils.LockDeviceByReservationType | MobileManager/Utils/ReservationUtils.cs:105-128 | dispatches on the reservation type: the same effect as AfterLock of LockByType |
| ReservationUtils.ReserveAllRequestedDevices | MobileManager/Utils/ReservationUtils.cs:80-103 | new state, reservation and reserved list are ReserveLoop: unmatched requests are skipped and a lock is tried only when a fresh read says available |
| ReservationUtils.AppliedFor | MobileManager/Utils/ReservationUtils.cs:65-72 | the applied record has the reservation's id, creation time and type, and the reserved list unchanged |
| ReservationUtils.AddAppliedReservation | MobileManager/Utils/ReservationUtils.cs:59-78 | when the REST call raises nothing changes and the failure is returned; otherwise the record is stored and appended to the caller's list |
| ReservationUtils.UnlockAll | MobileManager/Utils/ReservationUtils.cs:47-57 | the reserved devices are unlocked by the reservation type in list order; the first failing unlock ends the release. Its effect is stated by ReservationUtils.UnlockAllPasses, ReservationUtils.UnlockAllKeepsAvailable, ReservationUtils.UnlockAllReleases and AppliedController.UnlockAllFailsOnMissing |
| ReservationUtils.UnlockAllPasses | MobileManager/Utils/ReservationUtils.cs:47-57 | releasing devices that are all stored passes |
| ReservationUtils.UnlockAllKeepsAvailable | MobileManager/Utils/ReservationUtils.cs:47-57 | releasing never makes an available device unavailable |
| ReservationUtils.UnlockAllReleases | MobileManager/Utils/ReservationUtils.cs:47-57 | releasing stored devices leaves each available, except Appium devices whose session stop said false |
| ReservationUtils.UnlockAllReservedDevicesForFailedReservation | MobileManager/Utils/ReservationUtils.cs:47-57 | unlocks in list order, stopping at the first failure: outcome and device pool are those of UnlockAll |
| ReservationService.Release | MobileManager/Services/ReservationService.cs:166-180 | the unlock of a reservation that is not applied; a failing unlock ends the sweep with its failure. Its effect is stated by ReservationService.ReleaseKeepsInvariant |
| ReservationService.ProcessReservation | MobileManager/Services/ReservationService.cs:135-181 | one queued reservation: null requests end the sweep; the pre-check runs for more than one request; a complete lock is applied and leaves the queue, a partial one is released. Its effect is stated by ReservationService.ProcessRemovesOnlyApplied, ReservationService.ProcessKeepsInvariant and ReservationService.IdReservationsAreNeverApplied |
| ReservationService.SweepLoop | MobileManager/Services/ReservationService.cs:130-185 | the foreach over the queue read at the start, stopping at the first failure. Its effect is stated by ReservationService.SweepKeepsInvariant and ReservationService.SweepReportsCreation |
| ReservationService.ApplyAvailable | MobileManager/Services/ReservationService.cs:128-186 | one whole sweep: the loop over the queue as read at the start, with an empty applied list. ReservationService.ApplyAvailableReservations performs it and ReservationService.SweepReportsCreation states its answer |
| ReservationService.EligibilityKeepsInvariant | MobileManager/Utils/ReservationUtils.cs:196-243 | the pre-check keeps ids unique and devices consistent, ids in place |
| ReservationService.ReserveLoopKeepsInvariant | MobileManager/Utils/ReservationUtils.cs:80-103 | locking keeps ids unique and devices consistent |
| ReservationService.UnlockAllKeepsInvariant | MobileManager/Utils/ReservationUtils.cs:47-57 | releasing keeps ids unique and devices consistent |
| ReservationService.ReleaseKeepsInvariant | MobileManager/Services/ReservationService.cs:166-180 | releasing a partial lock keeps the invariant and never fails, since every reserved device is stored |
| ReservationService.ProcessKeepsInvariant | MobileManager/Services/ReservationService.cs:135-181 | one queued reservation keeps the invariant, and fails exactly when its request list is null |
| ReservationService.SweepKeepsInvariant | MobileManager/Services/ReservationService.cs:128-186 | a whole sweep keeps the invariant and aborts only at a reservation with a null request list |
| ReservationService.ReserveLoopKeepsQueueIds | MobileManager/Utils/ReservationUtils.cs:144-149 | writing back failure counters keeps the queue's ids in place |
| ReservationService.ProcessRemovesOnlyApplied | MobileManager/Services/ReservationService.cs:148-181 | either nothing is applied and the queue keeps its ids, or exactly one applied record with the reservation's id and one locked, distinct device per request is added and the id leaves the queue |
| ReservationService.SweepReportsCreation | MobileManager/Services/ReservationService.cs:131-185 | a sweep that finishes reports true exactly when it created an applied record |
| ReservationService.IdReservationsAreNeverApplied | MobileManager/Utils/ReservationUtils.cs:229-249 | an eligible multi-device reservation by ids ends with its devices held unavailable, nothing locked, nothing applied, still queued |
| ReservationService.HoldLoopTakesIds | MobileManager/Utils/ReservationUtils.cs:204-227 | after an eligible pre-check every requested id is stored unavailable |
| ReservationService.HoldLoopKeepsTaken | MobileManager/Utils/ReservationUtils.cs:204-227 | the pre-check never makes an unavailable device available |
| ReservationService.ReserveLoopSkipsTaken | MobileManager/Utils/ReservationUtils.cs:86-101 | id requests whose devices are all stored unavailable lock nothing and change nothing |
| ReservationService.LoadReservationQueue | MobileManager/Services/ReservationService.cs:193-196 | returns the queue as stored |
| ReservationService.ApplyAvailableReservations | MobileManager/Services/ReservationService.cs:128-186 | the new state is the sweep over the queue read at the start; the answer is the failure that aborted it, or whether any applied record was created |
| AppliedController.Create | MobileManager/Controllers/ReservationsAppliedController.cs:104-130 | a missing body or an empty reserved list is 400 with nothing stored; otherwise the record is appended and 201 returned |
| AppliedController.UnlockAllFailsOnMissing | MobileManager/Controllers/ReservationsAppliedController.cs:153-164 | a release fails only at a reserved device that is not stored, with KeyNotFound for its id |
| AppliedController.AppiumReleaseWithoutStopChangesNothing | MobileManager/Controllers/ReservationsAppliedController.cs:153-158 | an Appium release whose session stops all say false passes and stores nothing |
| AppliedController.DeleteAsync | MobileManager/Controllers/ReservationsAppliedController.cs:143-178 | unknown id: 404, nothing unlocked; otherwise devices unlocked in order; at the first failure 500 naming the device and the record stays; after all pass the record is removed |
| QueueController.HasDuplicateDeviceIds | MobileManager/Controllers/ReservationsQueueController.cs:116-121 | some non-null DeviceId occurs in two requests. QueueController.DuplicateDeviceIdsIff states it against positions |
| QueueController.DeviceIdsOf | MobileManager/Controllers/ReservationsQueueController.cs:116-121 | the set of non-null DeviceIds the requests carry |
| QueueController.DuplicateDeviceIdsIff | MobileManager/Controllers/ReservationsQueueController.cs:116-121 | duplicates exist exactly when two positions carry the same non-null DeviceId; requests without one never count |
| QueueController.UnmatchedRequests | MobileManager/Controllers/ReservationsQueueController.cs:144-175 | the requests, in order, for which FindMatchingDevice finds nothing. QueueController.UnmatchedIffNoDeviceAccepted characterises it |
| QueueController.UnmatchedIffNoDeviceAccepted | MobileManager/Controllers/ReservationsQueueController.cs:144-175 | a request is listed as unmatched exactly when no stored device is accepted for it; the list is empty exactly when every request has a match |
| QueueController.ValidateRequestedDevices | MobileManager/Controllers/ReservationsQueueController.cs:144-175 | returns every unmatched request, in order, and is valid exactly when there is none |
| QueueController.CreateQueuedAcceptance | MobileManager/Controllers/ReservationsQueueController.cs:101-142 | 201 exactly when the body and its request list are present and non-empty, no DeviceId repeats and every request matches; a created answer carries the body; an unmatched rejection lists exactly the requests no stored device accepts |
| QueueController.CreateQueuedResponse | MobileManager/Controllers/ReservationsQueueController.cs:101-142 | the answer of CreateAsync: 400 for a missing body, a null or empty request list or a repeated DeviceId, 400 with the unmatched requests, otherwise 201. QueueController.CreateQueuedAcceptance states when each answer is given |
| QueueController.CreateAsync | MobileManager/Controllers/ReservationsQueueController.cs:101-142 | answers as CreateQueuedResponse; only a 201 appends the reservation to the queue, anything else changes nothing |
| QueueController.IsNullOrWhiteSpace | MobileManager/Controllers/ReservationsQueueController.cs:194-197 | blank means every character is .NET white space |
| QueueController.Delete | MobileManager/Controllers/ReservationsQueueController.cs:189-214 | a blank id is 400, an unknown one 404, both changing nothing; otherwise the reservation is removed |
| QueueController.Update | MobileManager/Controllers/ReservationsQueueController.cs:228-256 | a missing body or a mismatched id is 400, an unknown id 404; otherwise the reservation is overwritten and returned |
| QueueController.UpdateReadsBack | MobileManager/Controllers/ReservationsQueueController.cs:236-244 | an update keeps the queue's ids in place and the new record reads back by its id |
| QueueController.ReplaceReservationFind | MobileManager/Controllers/ReservationsQueueController.cs:244 | an overwritten reservation reads back by its id |
| QueueController.DeleteRemovesOnlyThatId | MobileManager/Controllers/ReservationsQueueController.cs:206 | after delete no record has the id and every other record is kept |
| DevicesController.Create | MobileManager/Controllers/DevicesController.cs:215-245 | missing body 400; a stored id 409, checked before the empty check; empty id or name 400; otherwise the device is appended and 201 returned |
| DevicesController.CreateKeepsUniqueIds | MobileManager/Controllers/DevicesController.cs:222-235 | what Create adds keeps the ids unique and reads back by its id |
| DevicesController.Update | MobileManager/Controllers/DevicesController.cs:259-294 | missing body or mismatched id 400, unknown id 404; otherwise the body overwrites the device whatever its lock state |
| DevicesController.UpdateCanUnlockALockedDevice | MobileManager/Controllers/DevicesController.cs:272-282 | an update can turn a consistent Locked device into an available Locked one |
| DevicesController.Delete | MobileManager/Controllers/DevicesController.cs:307-330 | unknown id 404; 423 exactly for Locked or LockedOffline; otherwise the device is removed |
| DevicesController.RemoveDeviceEffect | MobileManager/Controllers/DevicesController.cs:322 | after removal no device has the id and every other device is kept |
| DevicesController.RestartResponse | MobileManager/Controllers/DevicesController.cs:342-363 | 200 exactly for a stored, available device whose restart printed nothing; 423 exactly for a stored unavailable one; 500 carries the restart output |
| DevicesController.AllProperties | MobileManager/Controllers/DevicesController.cs:122-128 | the gathered properties are exactly those of the stored devices |
| DevicesController.Keys | MobileManager/Controllers/DevicesController.cs:130 | the keys of the properties, one per property, in order |
| DevicesController.Distinct | MobileManager/Controllers/DevicesController.cs:130 | the same values, each once |
| DevicesController.GetAllPropertiesKeys | MobileManager/Controllers/DevicesController.cs:120-133 | every key found on some device, each exactly once, and no other |
| DevicesController.Lines | MobileManager/Controllers/DevicesController.cs:167-187 | StringBuilder.AppendLine over the lines, then ToString. DevicesController.SplitLinesInverse gives its inverse |
| DevicesController.SplitLinesInverse | MobileManager/Controllers/DevicesController.cs:165-188 | splitting a configuration text at line breaks gives back its lines |
| DevicesController.FirstWithKey | MobileManager/Controllers/DevicesController.cs:174 | First: the earliest property with that key; none exactly when no property has it |
| DevicesController.HeaderLines | MobileManager/Controllers/DevicesController.cs:168-169 | the section header "[mobile-manager-<id>]" and the url line. DevicesController.UrlLine states the url line for both branches |
| DevicesController.IosConfig | MobileManager/Controllers/DevicesController.cs:165-188 | the header lines and the fourteen iOS settings, the deviceVersion taken from the first ProductVersion property; without one it raises. DevicesController.DeviceConfigHeader and DevicesController.DeviceConfigErrors state its shape and its failure |
| DevicesController.AndroidConfig | MobileManager/Controllers/DevicesController.cs:190-202 | the header lines and the five Android settings. DevicesController.DeviceConfigHeader states its shape |
| DevicesController.DeviceConfig | MobileManager/Controllers/DevicesController.cs:152-163 | the configuration by device type; none for Unspecified. DevicesController.DeviceConfigErrors states when it is missing or fails |
| DevicesController.SeleniumConfigResponse | MobileManager/Controllers/DevicesController.cs:144-163 | GetSeleniumConfigById: 404 for an unknown id, 400 for an unspecified type, 500 for an iOS device without ProductVersion, otherwise the configuration text. DevicesController.SeleniumConfigShape states when each answer is given |
| DevicesController.UrlLine | MobileManager/Controllers/DevicesController.cs:169 | the url line is "url = " followed by the endpoint, empty or not |
| DevicesController.DeviceConfigHeader | MobileManager/Controllers/DevicesController.cs:165-202 | both configurations start with "[mobile-manager-<id>]" and "url = <endpoint>" |
| DevicesController.DeviceConfigErrors | MobileManager/Controllers/DevicesController.cs:152-174 | only an unspecified type has no configuration; the iOS one fails exactly without a ProductVersion property |
| DevicesController.SeleniumConfigShape | MobileManager/Controllers/DevicesController.cs:144-163 | a configuration is served only for a stored device with a type and starts with its header and url lines; 500 means iOS without ProductVersion, 400 an unspecified type |
| AppiumLog.JoinLogPath | MobileManager/Controllers/AppiumLogController.cs:114-122 | the configured directory joined with "<id>.log", adding the separator only when the directory does not end with it. AppiumLog.JoinLogPathShape states its shape |
| AppiumLog.JoinLogPathShape | MobileManager/Controllers/AppiumLogController.cs:114-122 | the path is the directory, exactly one separator that the directory may already end with, then "<id>.log" |
| AppiumLog.ReplaceTilde | MobileManager/Controllers/AppiumLogController.cs:132 | a text without '~' is left as it is |
| AppiumLog.ReplaceTildeConcat | MobileManager/Controllers/AppiumLogController.cs:132 | replacing distributes over concatenation |
| AppiumLog.ReplaceTildeRemovesAll | MobileManager/Controllers/AppiumLogController.cs:132 | every '~' is replaced: none is left when the home directory has none |
| AppiumLog.ReplaceTildeLength | MobileManager/Controllers/AppiumLogController.cs:132 | each '~' gives way to exactly one copy of the home directory |
| AppiumLog.HomeDir | MobileManager/Controllers/AppiumLogController.cs:126-130 | userprofile when non-empty, otherwise HOME, null included |
| AppiumLog.AppiumLogFilePath | MobileManager/Controllers/AppiumLogController.cs:107-136 | the joined path, with every `~` replaced by the home directory when the path starts with `~`. AppiumLog.AppiumLogFilePathProperties and AppiumLog.NoTildeNoExpansion state its properties |
| AppiumLog.AppiumLogFilePathProperties | MobileManager/Controllers/AppiumLogController.cs:107-136 | a joined path not starting with '~' is returned as is and ends with "<id>.log"; one that does has every '~' expanded |
| AppiumLog.NoTildeNoExpansion | MobileManager/Controllers/AppiumLogController.cs:124-135 | a directory and id without '~' give the joined path whatever the environment |
| AppiumLog.GetById | MobileManager/Controllers/AppiumLogController.cs:86-105 | unknown device 404 before any path; missing file 404 naming the path; otherwise the file's text |
| AppiumLog.Delete | MobileManager/Controllers/AppiumLogController.cs:47-75 | unknown device 404 before any path; missing file 404; a raising delete 500 with its message; otherwise 200 |
| AppiumLog.UnknownDeviceIgnoresPath | MobileManager/Controllers/AppiumLogController.cs:50-54 | for an unknown device the answer does not depend on the settings or the file system |

## Left out

- The background loop `RunAsyncApplyReservationTaskAsync` (MobileManager/Services/ReservationService.cs:78-119) and the hosted-service start and stop. They are sleeping, cancellation and connection retries; only one sweep is modelled.
- The screenshot lock of DevicesController. It is a polling, time-limited advisory lock whose point is concurrency.
- `DeviceUtils.RestartDevice`, the external processes, the XCUITest tooling and the git client. They spawn processes. The restart output is a parameter of `DevicesController.RestartResponse`.
- IRestClient and the EF repositories are not part of this model; `Store.Store` stands in for them. Their exceptions are not modelled: writes always succeed. So the 500 answers for failed repository writes in the controllers are left out. The exception is `ApplyReservation`, whose failure the sweep handles and the model keeps.
- Task.WhenAll in the pre-check's release is modelled as persisting the held devices one after another, in list order.
- `Store.Env` gives the same answer to identical calls (the shuffle, the session start and stop). The source's random shuffle and live Appium service may answer differently each time.
- The reservation object and the reserved-device list that the source mutates in place are threaded as values. There is no aliasing between the caller's objects and the store's records.
- `ReservationUtils.AfterLock`: FailedToApply is an unbounded integer; the 32-bit wrap-around after 2^31-1 failures is not modelled.
- JSON serialisation, logging and the HTTP result classes. Responses are the `Http.Response` datatype with the status codes and messages.
- The Selenium configuration uses "\n" as line terminator. Environment.NewLine is "\r\n" on Windows.
- `Glob.GlobMatch` and `Glob.IsWildCardMatch`: strings are sequences of Unicode scalar values, so `?` (and each step of `*`) consumes one supplementary-plane character, such as an emoji, where the .NET regex `.` consumes one UTF-16 code unit and needs two. A requested value "?" therefore matches "😀" here and not in the source.
- Null property lists, on a device or on a request, are not modelled; the source would dereference them. Both lists are always present here.
- `ReservationUtils.IsReservationEligible` and `ReservationUtils.ReserveAllRequestedDevices` require a non-null request list; the source would throw a NullReferenceException, and its only caller checks first.
- `ReservationUtils.IsDeviceAvailable` requires the device to be stored; the source would throw a NullReferenceException on a missing one, and its only caller passes a device it has just read.
- `AppiumLog.GetById` and `AppiumLog.Delete`: the file system is a parameter (existence, text, whether a delete raises); the file is not actually removed.
- `DevicesController.SeleniumConfigResponse`: the unhandled exception of a missing ProductVersion is modelled as a 500 carrying the exception's message; the framework's actual error body is not modelled.
