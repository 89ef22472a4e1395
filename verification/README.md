# Verified model of the pet feeder firmware

A Dafny model of the parts of the firmware that keep state, with proofs of what they do over whole runs. Nothing here
is executed; everything below is a statement the Dafny verifier has proved. `dafny verify dfyconfig.toml` checks it all.

## What is modelled

**The feeding scheduler.** `Storage` is the ZMS partition as a map from identifiers to bytes, `RuleCodec` the 16-byte
little-endian image of `Rules_t`, `SchedulerRules` the slot allocator with its bitmap (a class over an array), specified
by the functions of `Scheduler`; `StoreEffects` says what these do to every slot and identifier. `Application` holds the feeding thread and the motor as classes over the rule table,
the reload flag and a meter of requested sleeps; they are proved against `Feeding.Tick`, one turn of the loop, and
`Feeding`, `FeedingEffects`, `Weekly`, `OneShot`, `OneShotRuns` and `OneShotScripts` prove properties of all unbounded
runs of those turns interleaved with other threads and restarts. `RuleClock` relates the matching predicates to the minutes since the epoch.

**Rule updates.** `RuleUpdates` is the protocol between MQTT writer, event queue, dispatcher and application thread at the
granularity of its shared-memory steps: flash write, bit set, announcement, queue get, delivery, each bit test and
each slot read of a reload, flag read and flag clear.

**The connection manager.** `NetMachine` is the Wi-Fi state machine with the one-shot timer, the driver callbacks,
provisioning and the bounded event queue, as a transition table; `Netmgnt` holds the classes with the code's own entry,
exit and transition actions, which are proved to implement that table. `NetProofs` (retries, gate, history), `Wakeups` (no
stuck wait, stored credentials), `Deadlocks` (the waits that nothing ends) and `Transitions` (every arc, and the ways to a
connection and through provisioning) prove invariants of every run in which callbacks come between handled events and while
the dispatcher sleeps inside an entry action. `Credentials` treats the Bluetooth writes as a sequence on its own.

**The MQTT session.** `SessionMachine` is the MQTT thread with the dispatcher and the level sensor; every library call may
run the event handler any number of times, with steps of other threads in between. `Mqtt` holds the classes,
`SessionProofs` and `SessionSteps` the properties of all runs.

Conventions. A run is a function from step numbers to labels and a trace the function of the states it leads through, so
runs are unbounded. The kernel, flash, network, Bluetooth, JSON and clock answer through parameters (`zms`,
`faults`, `erases`, `Lib`, `Callback`, `Happening`) that are universally quantified. The queue holds ten messages and
remembers in `dropped` that a put was lost. `repaired` chooses what `delete_rule` erases: `false` is the code as
written, `true` its evident intent; results that hold for both take it as a parameter. `gen`, `retired`,
`cut`, `commits`, `stores` and `trace` are history that the code does not keep.

## Main results

- Store: `AgreementThroughoutIff`, `ReadListsStore`, `WrittenRuleIsListed`, `StoredRuleSurvivesRead`, `ClearEmptiesIff`,
  `DeletionRemovesExactly`, `TopicsKeepAccepted`.
- Feeding: `WeeklyExactly`, `ExactIffGap`, `AtMostOncePerWindow`, `StepsAreConserved`, `WatchdogHoldsIff`,
  `AtMostOnceIff`, `SafeRunsFeedOnce`, `InvThroughoutIff`, `OneShotFedInItsMinute`, `SlotLeavesOnlyIf`,
  `UpdateLeadsToReload`.
- Updates: `NoUpdateLost`, `SettledTableIsCurrent`, `AddedRuleArrives`, `UnnoticedForGood`.
- Connection: `NeverStuckIff`, `StrandedForGood`, `HangsIff`, `TriesCountTimeouts`, `GivesUpAtMax`, `ConnectedIsExplained`,
  `EveryStateIsExplained`, `GetsConnected`, `GetsProvisioned`, `SilentDriverGivesUp`, `StoresLastCommit`,
  `CommitsAreWellPaired`.
- Session: `SensorFollowsSession`, `EntersRunningIff`, `RunningIsEarned`, `BlockedWhileGateClosed`,
  `OnePublishAfterDisconnect`, `MissedConnackIsForever`.

## Where the code departs from its intent

The lemmas named say exactly when the intended property fails, or give a whole run in which it does.

- `delete_rule` range-checks `RULES_ID_BASE + slot` but erases the identifier `slot`. Whether that happens is decided by
  the bit, the slot range and the erase answer (`DeleteKeepsAgreementIff`, `DeleteKeepsCredentialsIff`), and over a run of
  calls the agreement of bitmap and flash holds throughout exactly if no call did it and every length query of `init` was
  answered (`AgreementThroughoutIff`). Deleting slot 2, 3 or 4 erases the entry two slots below; if a rule was stored
  there, the next reading fails (`ReadsAfterDeleteIff`).
  After a restart a deleted one-shot rule is dispensed again (`RestartFeedsAgainIff`, for every number of slots).
  The identifiers 0 and 1 are reserved for credentials but only read, in the build without Zephyr's credentials
  library; the configured build uses the library.
- After a load that failed, no rule at all is dispensed until the next update or restart (`FailedLoadSilences`).
- `process_rules` deletes by slot: a one-shot entry whose slot was rewritten since the load erases the new rule
  (`SlotLeavesOnlyIf`).
- A reload dispenses a rule again that was dispensed in the same minute (`LoadFeedsMatchingRules`).
- Removing or clearing rules announces an update only for a positive result, which success never is
  (`RemovalAnnouncedIff`, `ClearAnnouncedIff`, `RemovalSignalsNothing`, `RemovalGoesUnseen`).
- The select loop stops at the live rule count, not at the number of loaded entries. After a one-shot rule was deleted the
  last entry is invisible until a reload (`VisibleIff`, `DeletionHidesLastEntry`). Conversely, a rule added after a
  reload shorter than an earlier one makes a stale copy behind the loaded entries visible, and one one-shot rule is
  dispensed twice in one turn, even with the repaired deletion and every poll reading the live count (`TwinsFedTwiceIff`,
  and `TwinsRun` for every number of slots above one). Hence one-shot rules are dispensed at most once in all runs exactly
  with the repaired deletion and a single slot (`AtMostOnceIff`). With more slots it holds as long as no poll selects a
  stale entry (`InvThroughoutIff`), in particular if at each poll no rule was added since the load or the last reading
  was no shorter than any before it (`SafeRunsFeedOnce`).
- A failed slot read, or an announcement to a full queue, leaves a rule out of RAM in every continuation without
  another update (`ReadLosesIff`, `AnnouncementSignalsIff`, `FailedReadLosesUpdate`, `FullQueueLosesUpdate`).
- The RTC counts months from 0, accepted rules from 1: a one-shot rule never matches on the date it names but a month later
  (`OneShotIsAMonthLate`), and not at all if the next month of that year has no such day (`OneShotCanMatchIff`).
- A configured maximum of tries above 255 never gives up, because the counter has eight bits (`GivesUpIff`).
- A connect result that comes late, or an address that comes early, stops the timer the current wait relies on, and a full
  queue loses its expiry (`LateConnectResultStrandsIff`, `EarlyAddressStrandsIff`, `DroppedTimeoutStrandsIff`); the wait
  is then never left unless the driver itself reports a change (`StrandedForGood`). No wait is ever stuck exactly if no
  such callback comes (`NeverStuckIff`).
- INITIALIZING with an interface that does not come up, and PROVISIONING when Bluetooth could not be started, have no
  timer and are never left (`HangsIff`, `NoBluetoothIsFinal`). As Zephyr refuses to enable Bluetooth a second time,
  provisioning can be enabled only once per power-up (`ProvisioningEnabledOnce`).
- The MQTT thread never reads its socket while CONNECTING, so a CONNACK that `connect` did not wait for is never
  seen (`LeavesConnectingIff`, `MissedConnackIsForever`); `src/network/mqtt/README.md` line 32 describes a retry.
- The sensor keeps sending without a session exactly if `connect` was called again without a DISCONNECT event
  (`SensorOutlivesSessionIff`). Events of group WIFI_EVT reach no listener because the code of the group is 0
  (`WifiEventsReachNobody`).
- `src/network/README.md` still describes access-point and HTTP provisioning states; the code, and this model, provision
  over Bluetooth.

## Model

| member | source | states |
|---|---|---|
| RuleCodec.DecodeEncode | common/types.hpp:9-40 | every rule is recovered from its 16-byte image, whatever the four padding bytes hold |
| RuleCodec.StoredRuleSurvivesRead | src/storage/Storage.cpp:69-91 | the zero a read forces into the buffer destroys no field of a rule, whatever the buffer held |
| RuleCodec.FullReadIsExactIff | src/storage/Storage.cpp:79-87 | a read that fills its buffer returns the stored bytes exactly if the last one is 0 |
| Storage.Storage.ReadBuffer | src/storage/Storage.cpp:69-91 | a failing read leaves the buffer alone; a successful one copies and terminates inside the first `size` bytes only |
| Storage.Storage.WriteBuffer | src/storage/Storage.cpp:101-136 | nonempty data is stored exactly if the result is positive, empty data erases the entry, lack of space is reported as -ENOSPC before anything happens, and no empty entry is ever left |
| Storage.Storage.IsIdEmpty | src/storage/Storage.cpp:164-175 | an identifier counts as empty if nothing is stored there or the length query fails |
| Storage.Storage.DeleteData | src/storage/Storage.cpp:183-192 | exactly the given identifier disappears, and only on result 0 |
| Scheduler.InitAgreesIff | src/application/SchedulerRules.cpp:9-20 | the rebuilt bitmap agrees with flash exactly if every length query of a stored rule was answered |
| Scheduler.DeleteKeepsAgreementIff | src/application/SchedulerRules.cpp:86-105 | as written a deletion keeps bitmap and flash in agreement iff the slot is free, out of range, or its erasure fails; repaired, always |
| Scheduler.DeleteKeepsCredentialsIff | src/application/SchedulerRules.cpp:86-105 | from bit, range, answer and slot number: the exact cases in which a deletion leaves the stored SSID and password alone |
| Scheduler.AgreementOverRuns | src/application/SchedulerRules.cpp:9-120 | after init, over every sequence of harmless calls (judged by bitmap, arguments and answers before each call) and any storage failures: bit i is set iff slot i is stored, credentials are untouched, and init again gives the same bitmap |
| Scheduler.AgreementThroughoutIff | src/application/SchedulerRules.cpp:9-120 | the agreement holds after init and after every call iff init and every call were harmless |
| StoreEffects.WriteStoresAtFirstFit | src/application/SchedulerRules.cpp:29-51 | data goes to the first free slot with room that ZMS accepts, and to no other place; the result is its size |
| StoreEffects.DeletionRemovesExactly | src/application/SchedulerRules.cpp:86-105 | a deletion succeeds iff the slot is set, at most 4, and its erasure answers 0; it then clears that bit and erases one identifier, and touches nothing else |
| StoreEffects.ClearEmptiesIff | src/application/SchedulerRules.cpp:107-120 | a slot is emptied in bitmap and flash iff no erasure up to it was refused, and untouched otherwise |
| StoreEffects.ClearResult | src/application/SchedulerRules.cpp:107-120 | a clear returns 0 iff no erasure was refused, and then no rule is left; otherwise the first refusal; identifiers outside the rules are untouched |
| StoreEffects.FailedReadLoadsPrefix | src/application/SchedulerRules.cpp:57-84 | a reading that fails at a slot returns that failure, has loaded the slots before it and left the rest of the table alone |
| Scheduler.HoldsRulesOverRuns | src/application/SchedulerRules.cpp:29-51 | only rule images are ever stored if only rule images are written |
| Scheduler.ReadListsStore | src/application/SchedulerRules.cpp:57-84 | 0 is returned iff something is stored and no read failed; then the table prefix is exactly the stored rules in slot order, all READY, rightly indexed, as long as the live count, and the rest is unchanged |
| Scheduler.ReadAfterRunLists | src/application/SchedulerRules.cpp:9-120 | the same after any sequence of harmless calls since init |
| Scheduler.ReadsAfterDeleteIff | src/application/SchedulerRules.cpp:57-105 | after a successful deletion a fault-free reading succeeds iff a rule is left and, as written, the slot two below was free |
| Scheduler.WrittenRuleIsListed | src/application/SchedulerRules.cpp:29-84 | a rule accepted by a write is in the next fault-free listing, every field intact |
| SchedulerRules.SchedulerRules.Init | src/application/SchedulerRules.cpp:9-20 | the two loops leave the bitmap that flash and the length queries determine |
| SchedulerRules.SchedulerRules.WriteRule | src/application/SchedulerRules.cpp:29-51 | the scanning loop, with its full-bitmap shortcut, stores at the first slot that fits and nowhere else; an empty write sets no bit |
| SchedulerRules.SchedulerRules.ReadRules | src/application/SchedulerRules.cpp:57-84 | the scanning loop loads the set slots in order into the table and stops at the first failing read |
| SchedulerRules.SchedulerRules.DeleteRule | src/application/SchedulerRules.cpp:86-105 | new bitmap, flash and result of a deletion, in either version; -1 and no change for a clear slot or an identifier out of range |
| SchedulerRules.SchedulerRules.ClearRules | src/application/SchedulerRules.cpp:107-120 | a clear erases exactly the slots before the first refused one and returns that refusal |
| RuleClock.MatchesIffDue | src/application/Application.cpp:106-127 | an accepted weekly rule matches a clock reading iff the minute since the epoch is one of its due minutes |
| RuleClock.MatchesIffItsMinute | src/application/Application.cpp:73-127 | an accepted one-shot rule matches a reading iff it is its date and its minute of the day |
| RuleClock.AcceptedIff | src/network/mqtt/MQTT.cpp:94-126 | exactly the rules of a known period with date fields and mask in range that match some reading are accepted |
| RuleClock.AnyWeeks | src/application/Application.cpp:112-127 | the same for any number of weeks |
| RuleClock.OneShotCanMatchIff | src/network/mqtt/MQTT.cpp:104-112 | an accepted one-shot rule can match a calendar date as the RTC reads it iff it does not name December and the month after the named one has that day in that year |
| RuleClock.OneShotIsAMonthLate | src/application/Application.cpp:88-104 | a one-shot rule never matches on the date it names, only in the month after |
| Feeding.Bound | src/application/Application.cpp:132 | the select loop visits an entry only while its index is below the count read at that moment, and stops at the first that is not |
| Feeding.EntryStep | src/application/Application.cpp:49-150 | outside reloads an entry changes only by its own check or its own dispense, never by another entry or thread |
| FeedingEffects.ProcessClearsIff | src/application/Application.cpp:49-66 | a PROCESS turn clears a slot iff a dispensed one-shot entry of that slot exists whose erasure works; a weekly rule never does |
| FeedingEffects.ProcessErasesIff | src/application/Application.cpp:49-66 | of all identifiers exactly those of the cleared slots disappear from flash, and no content changes |
| FeedingEffects.SlotLeavesOnlyIf | src/application/Application.cpp:60-63 | in every run the application thread takes a rule out of the bitmap only so; anything else is another thread's call or a restart |
| FeedingEffects.OneShotFedInItsMinute | src/application/Application.cpp:88-127 | in every run a one-shot rule is dispensed only after a poll on its date and in its minute |
| FeedingEffects.UnknownPeriodNeverFed | src/application/Application.cpp:112-127 | in every run no rule of another period is dispensed, whatever flash holds |
| FeedingEffects.UpdateLeadsToReload | src/application/Application.cpp:16-23 | after MQTT_UPDATE_DATA the table is read again within four turns, whatever other threads do |
| Feeding.SelectReturnsWaitingCount | src/application/Application.cpp:129-150 | the returned count is the number of WAITING entries the loop leaves |
| Feeding.NoWaitingAtRest | src/application/Application.cpp:152-197 | in every run no entry is WAITING outside PROCESS |
| Feeding.AtMostOncePerWindow | src/application/Application.cpp:49-150 | between two dispenses of one entry there is a reload or a poll at which its weekly rule did not match |
| Feeding.StepsAreConserved | src/application/Application.cpp:49-71 | in every run motor toggles equal the sum of the amounts dispensed |
| Feeding.IdleWithinFourTurns | src/application/Application.cpp:159-216 | in every run four turns without a restart pass through IDLE, whatever other threads do |
| Feeding.DelayStaysInBudget | src/application/Application.cpp:152-217 | between two watchdog feeds the requested sleep is at most 5000 ms plus 255 half-milliseconds per slot |
| Feeding.WatchdogHoldsIff | src/application/Application.cpp:156-211 | from the start of the device that sleep stays below the 10000 ms watchdog period in all runs iff there are at most 39 slots |
| Feeding.EveryScheduleRuns | src/application/Application.cpp:159-216 | every schedule of turns and foreign steps has a run, so the theorems on runs are not vacuous |
| Feeding.FailedLoadSilences | src/application/Application.cpp:170-212 | after a load that did not complete no entry is dispensed until another MQTT_UPDATE_DATA or a restart |
| Feeding.LoadFeedsMatchingRules | src/application/Application.cpp:129-191 | a stored rule that matches at the poll after a fault-free load is dispensed, even if it was just before |
| Weekly.FedOncePerDueMinute | src/application/Application.cpp:49-150 | under polls with gaps up to 60 s, and reloads that keep the entry and come outside its due minutes, a weekly rule is dispensed once for each due minute, no more and no less |
| Weekly.WeeklyExactly | src/application/Application.cpp:49-150 | over whole weeks it is dispensed exactly weeks times the number of selected weekdays |
| Weekly.ExactIffGap | src/application/Application.cpp:73-86 | over all runs from the start of the device that holds for all weekly rules iff the largest gap between polls is at most 60 s |
| Weekly.VisibleIff | src/application/Application.cpp:129-150 | a matching READY entry is selected iff its index is below the live count |
| Weekly.DeletionHidesLastEntry | src/application/Application.cpp:49-66 | after a one-shot rule was deleted the last loaded entry is skipped even when it matches |
| Application.StepperController.MoveFor | src/devices/motor/StepperController.cpp:65-76 | one toggle and one 500 us sleep per step, none for an amount that is not positive, and the driver is left disabled |
| Application.Application.GetRules | src/application/Application.cpp:37-47 | the table becomes the reading, and rules count as available iff they were or the reading was complete |
| Application.Application.SelectRulesToExecute | src/application/Application.cpp:129-150 | the loop over changing live counts selects exactly the matching READY entries it visits, re-arms missed weekly ones, and returns how many it selected |
| Application.Application.ProcessRules | src/application/Application.cpp:49-66 | all WAITING entries become EXECUTED, their amounts are moved, and the one-shot ones among them are deleted in table order |
| Application.Application.Turn | src/application/Application.cpp:159-216 | one turn of the loop is the step of the state machine the theorems on runs are about |
| OneShot.BootSatisfiesInv | src/application/SchedulerRules.cpp:9-20 | whatever flash holds, a started device is within the one-shot invariant |
| OneShot.InvAlways | src/application/Application.cpp:49-197 | the one-shot invariant holds after every step of a run in which no poll selects a stale entry and, as written, nothing is revived |
| OneShot.InvThroughoutIff | src/application/Application.cpp:129-150 | in any run the invariant holds up to a step iff, judged before each step, no poll selects a matching READY entry beyond the last reading and no rebuild of the bitmap finds a retired rule still stored |
| OneShot.FedIsFresh | src/application/Application.cpp:49-66 | a dispensed rule was not deleted before and is not dispensed by another entry of the same turn |
| OneShot.OneShotFedAtMostOnce | src/application/Application.cpp:49-66 | in such a run a one-shot rule whose deletion succeeded is never dispensed again, by any later turn, reload or restart |
| OneShot.TwinsFedTwiceIff | src/application/Application.cpp:129-150 | with polls reading the live count the copy is dispensed too iff that count reaches past it, beyond the entries of the last reading |
| OneShotRuns.CleanPollIsWithin | src/application/Application.cpp:129-150 | a poll that reads at most the live count, with no rule added since the load, never looks past the last reading |
| OneShotRuns.SafeRunsFeedOnce | src/application/Application.cpp:49-66 | from the start of the device, the same if before each poll no rule was added since the load or the last reading is no shorter than any since the restart; with the repaired deletion over any restarts |
| OneShotRuns.OneSlotFeedsOnce | src/application/Application.cpp:129-150 | with one slot and the repaired deletion it holds in every run, whatever the polls read |
| OneShotScripts.TwinsRun | src/application/Application.cpp:129-150 | for every number of slots above one, a run from the start of the device with polls reading the live count in which a rule whose deletion succeeded is dispensed by two entries in one turn |
| OneShotScripts.RestartFeedsAgainIff | src/application/SchedulerRules.cpp:86-105 | for every number of slots, a run with a restart in which such a rule is dispensed again iff the deletion is the one written |
| OneShotScripts.AtMostOnceIff | src/application/Application.cpp:49-150 | over all runs from the start of the device with polls reading the live count, a rule whose deletion succeeded is never dispensed again iff the deletion is repaired and there is one slot |
| RuleUpdates.NoUpdateLost | src/application/Application.cpp:170-212 | in every interleaving a completely added rule that is not in RAM is still being announced, queued, delivered, flagged or due for a load, unless a message was dropped or the last load was cut short at or before its slot |
| RuleUpdates.SettledTableIsCurrent | src/application/SchedulerRules.cpp:57-84 | once nothing is on its way, RAM holds the newest rule of every stored slot before the one whose read failed, if one did |
| RuleUpdates.AddedRuleArrives | src/application/Application.cpp:170-212 | if from some step on only the protocol runs, with working reads and no idle step, everything settles within a bound that every step lowers, and every added rule is in RAM |
| RuleUpdates.AnnouncementSignalsIff | src/network/mqtt/MQTT.cpp:766-772 | an announcement reaches the application iff the queue has room or another update, delivery, flag or due load covers the slot |
| RuleUpdates.ReadLosesIff | src/application/SchedulerRules.cpp:65-82 | the read a load makes of a missing rule leaves it missing iff it fails |
| RuleUpdates.UnnoticedForGood | src/application/Application.cpp:170-212 | with nothing on its way RAM keeps what it has about a slot in every continuation without another announcement |
| RuleUpdates.FailedReadLosesUpdate | src/application/Application.cpp:37-47 | after a failed slot read with nothing on its way the rule is missing in every continuation without another announcement |
| RuleUpdates.FullQueueLosesUpdate | src/network/mqtt/MQTT.cpp:766-772 | after an announcement to a full queue with nothing on its way, likewise |
| RuleUpdates.RemovalSignalsNothing | src/network/mqtt/MQTT.cpp:181-209 | in every state what is on its way for any slot is the same before and after a removal |
| RuleUpdates.RemovalGoesUnseen | src/network/mqtt/MQTT.cpp:181-209 | after a removal with nothing on its way RAM keeps the removed rule in every such continuation |
| Credentials.Latest | src/network/provisioning/ble/BluetoothLE.cpp:55-89 | what the latest accepted write of a half is: no accepted write of that half comes after it |
| Credentials.BufferAlwaysPending | src/network/provisioning/ble/BluetoothLE.cpp:55-125 | after every sequence of writes the buffer is the latest accepted write of each half since the last commit, zero beyond its length, and never both halves |
| Credentials.CommitsAreWellPaired | src/network/provisioning/ble/BluetoothLE.cpp:55-116 | every commit is made of the latest accepted write of each half since the commit before, and no write feeds two commits |
| Credentials.CommitsIff | src/network/provisioning/ble/BluetoothLE.cpp:106-125 | a write commits iff it is accepted and both halves are then nonempty; an overlong write changes nothing |
| NetProofs.FlagsAlways | src/network/Netmgnt.cpp:179-249 | between handled events of every run MQTT's gate is open iff the state is CONNECTED, CONNECTED means provisioning is off, and the counter is below the maximum |
| NetProofs.TriesCountTimeouts | src/network/Netmgnt.cpp:152-177 | the counter equals the timeouts handled in the current stay, stays below the maximum and is 0 in all other states |
| NetProofs.GivesUpAtMax | src/network/Netmgnt.cpp:313-359 | exactly the max-th timeout of a stay leads to provisioning; every other one re-enters the state |
| NetProofs.GivesUpIff | src/network/Netmgnt.cpp:414-417 | repeated timeouts end in provisioning iff the maximum fits the 8-bit counter |
| NetProofs.ConnectedIsExplained | src/network/Netmgnt.cpp:313-365 | CONNECTED means WIFI_CONNECTED and then WIFI_IP_ACQUIRED were handled since CONNECTING was last entered, with no WIFI_DISCONNECTED between or after |
| Transitions.ArcsIff | src/network/Netmgnt.cpp:276-396 | from each state, which handled event leads where, iff, and that nothing else leads anywhere |
| Transitions.EveryStateIsExplained | src/network/Netmgnt.cpp:276-396 | in every run each state was last entered from where, and by the event, it is for |
| Transitions.GetsConnected | src/network/Netmgnt.cpp:131-150 | from power-up with stored credentials and good answers the device is CONNECTED, with the gate open, after six steps |
| Transitions.GetsProvisioned | src/network/Netmgnt.cpp:250-262 | from power-up without credentials any SSID of 1 to 32 and password of 1 to 64 bytes is stored iff the library accepts it, and then tried, otherwise provisioning goes on |
| Transitions.SilentDriverGivesUp | src/network/Netmgnt.cpp:313-359 | with a silent driver a wait is retried with its timer armed again and gives up at exactly the max-th expiry |
| Transitions.DisconnectDisarms | src/network/Netmgnt.cpp:354-358 | after a disconnect while waiting for an address the old timer cannot expire into the new attempt |
| Wakeups.HonestAlways | src/network/Netmgnt.cpp:276-396 | in every run queued events are only those the interface and the commits justify, and Provisioning holds the pair committed last |
| Wakeups.NeverStuckIff | src/network/Netmgnt.cpp:313-359 | in every run, up to any step, a wait always has its timer armed or an event queued that the state reacts to (or a message was lost) iff no callback stopped the timer of a wait that nothing queued will end |
| Wakeups.NeverStuck | src/network/Netmgnt.cpp:313-359 | hence always, if connect results do not come while waiting for an address nor addresses while CONNECTING |
| Wakeups.StoresLastCommit | src/network/provisioning/Provisioning.cpp:72-87 | every successful store writes exactly the pair committed last, and only when PROVISIONING receives it |
| Deadlocks.LateConnectResultStrandsIff | src/network/wifi/WifiStation.cpp:21-39 | a connect result during the wait for an address strands it iff nothing else is queued for it |
| Deadlocks.EarlyAddressStrandsIff | src/network/wifi/WifiStation.cpp:65-85 | an address reported while CONNECTING strands it iff nothing else is queued for it |
| Deadlocks.DroppedTimeoutStrandsIff | src/network/wifi/WifiStation.cpp:14-19 | the expiry wakes a wait iff the queue has room or something else will |
| Deadlocks.DeafForGood | src/network/Netmgnt.cpp:276-396 | a state that reacts to nothing queued is never left as long as no callback brings something it reacts to |
| Deadlocks.StrandedForGood | src/network/Netmgnt.cpp:313-359 | a stranded wait is never left in any run unless the driver itself reports a change |
| Deadlocks.HangsIff | src/network/wifi/WifiStation.cpp:95-119 | the device stays in INITIALIZING in every run iff its interface exists but does not come up |
| Deadlocks.NoBluetoothIsFinal | src/network/provisioning/Provisioning.cpp:9-27 | PROVISIONING without Bluetooth is never left, in any run |
| Deadlocks.ProvisioningEnabledOnce | src/network/provisioning/Provisioning.cpp:9-27 | in every run in which enabling Bluetooth a second time is refused, provisioning is enabled at most once |
| Netmgnt.BluetoothLE.WriteHalf | src/network/provisioning/ble/BluetoothLE.cpp:55-89 | in place: new buffer, result, and at most one commit handed to Provisioning and announced |
| Netmgnt.WifiStation.OnDriver | src/network/wifi/WifiStation.cpp:14-85 | which driver events stop the timer and which message, if any, each queues |
| Netmgnt.Netmgnt.OnEntry | src/network/Netmgnt.cpp:210-274 | the entry action of each state, with whatever other threads do while it runs |
| Netmgnt.Netmgnt.OnExit | src/network/Netmgnt.cpp:152-197 | the counter is reset only when a wait is really left, and the gate closes only on leaving CONNECTED |
| Netmgnt.Netmgnt.Transition | src/network/Netmgnt.cpp:199-208 | exit action, state change and entry action compose to the transition of the table |
| Netmgnt.Netmgnt.ProcessState | src/network/Netmgnt.cpp:276-396 | the nested branches of all states implement the transition table |
| Netmgnt.Netmgnt.DispatchNext | src/network/Netmgnt.cpp:131-150 | one message is taken; only the Wi-Fi and provisioning groups reach the state machine |
| SessionProofs.FollowsAlways | src/network/mqtt/MQTT.cpp:226-248 | in every run the session flag is exactly a live session, and the queue replayed into the sensor gives what was last announced, unless a message was dropped |
| SessionProofs.SensorFollowsSession | src/devices/level_sensor/LvlSensor.cpp:20-35 | without drops a connected session is one the sensor will follow, and with an empty queue already follows |
| SessionProofs.SensorOutlivesSessionIff | src/network/mqtt/MQTT.cpp:396-416 | the sensor sends without a session iff the last announcement was a CONNACK and `connect` was called since |
| SessionSteps.EntersRunningIff | src/network/mqtt/MQTT.cpp:676-697 | in every run RUNNING is entered iff a turn in CONNECTING has a session and `mqtt_subscribe` returns no error |
| SessionSteps.LeavesRunningIff | src/network/mqtt/MQTT.cpp:698-718 | in every run RUNNING is left iff a turn finds the session gone or the library reports the connection closed |
| SessionSteps.RunningIsEarned | src/network/mqtt/MQTT.cpp:661-697 | every entry to RUNNING in the history was made by such a turn, and a successful CONNACK had come since the latest `connect` |
| SessionSteps.BlockedWhileGateClosed | src/network/mqtt/MQTT.cpp:720-733 | while the gate is closed ERROR stays and no connection is tried |
| SessionSteps.RecoversInFourTurns | src/network/mqtt/MQTT.cpp:621-739 | from ERROR with the gate open four good turns lead back to RUNNING with a session |
| SessionSteps.SlowConnackIsMissed | src/network/mqtt/MQTT.cpp:408-415 | a `connect` whose poll ends without an event leaves the thread in CONNECTING in every continuation |
| SessionProofs.MissedConnackIsForever | src/network/mqtt/MQTT.cpp:676-697 | once `connect` returned without its CONNACK the thread stays in CONNECTING in every continuation |
| SessionProofs.OnePublishAfterDisconnect | src/network/mqtt/MQTT.cpp:698-718 | at every point of every run at most one publish was attempted since a DISCONNECT was handled, until a CONNACK is handled or RUNNING is left |
| SessionProofs.OnePublishPerStay | src/network/mqtt/MQTT.cpp:698-718 | hence at most one after the first DISCONNECT of a stay in RUNNING in which no CONNACK follows it |
| SessionProofs.PublishesAgainIff | src/network/mqtt/MQTT.cpp:698-718 | after a DISCONNECT in the stay any turn, whatever it handles, attempts a further publish iff a CONNACK has revived the session, the library does not report the connection closed and there is data |
| Mqtt.MQTT.Happens | src/network/mqtt/MQTT.cpp:226-291 | effect of each handler event on flag, queue, sensor and history |
| Mqtt.MQTT.ReadPayload | src/network/mqtt/MQTT.cpp:499-530 | when input or keep-alive run and what is returned, including the socket error after a good input |
| Mqtt.MQTT.TaskTurn | src/network/mqtt/MQTT.cpp:621-739 | one turn of the loop is the step of the session machine the theorems on runs are about |
| Mqtt.MQTT.OnMqttAddRuleTopic | src/network/mqtt/MQTT.cpp:163-180 | only a parsed and valid rule is stored, and it is announced iff it was stored |
| Mqtt.MQTT.OnMqttRemoveRuleTopic | src/network/mqtt/MQTT.cpp:181-209 | which identifiers clear, delete or do nothing; with a storage that never answers positively nothing is announced |
| Mqtt.TopicsKeepAccepted | src/network/mqtt/MQTT.cpp:163-209 | however the two rule topics are used, only rules that can match some reading are ever stored |
| Mqtt.AddsIff | src/network/mqtt/MQTT.cpp:163-180 | a payload adds and announces a rule iff it is accepted and some free slot has room that ZMS accepts |
| Mqtt.ClearAnnouncedIff | src/network/mqtt/MQTT.cpp:188-196 | a clear is announced iff an erasure, after successful ones only, gets a positive storage answer |

## Left out

- OneShot.OneShotFedAtMostOnce: holds for runs in which no poll selects a stale entry and, as written, nothing is revived; `AtMostOnceIff` says when that is always so, `SafeRunsFeedOnce` derives the first condition from inputs.
- OneShot.InvAlways: has the same two conditions; `InvThroughoutIff` shows that they are exact for the invariant.
- OneShotRuns.SafeRunsFeedOnce: leaves out polls that both follow an addition since the load (or read more than the live count) and follow a reading shorter than an earlier one; there `TwinsRun` is possible.
- Wakeups.NeverStuck: assumes callbacks in their own phase; `NeverStuckIff` does without.
- Weekly.FedOncePerDueMinute: counts weekly rules only, and excludes reloads in a due minute or that move the rule to another entry; `LoadFeedsMatchingRules` says what a reload in a due minute adds.
- Weekly.WeeklyExactly: has the same window.
- Feeding.WatchdogHoldsIff: bounds the sleeps the thread asks for, not the time spent computing or preempted.
- RuleUpdates.NoUpdateLost: excludes a dropped message, and slots from the one whose read failed; both exceptions have their lemmas.
- Scheduler.AgreementOverRuns: covers harmless calls; `AgreementThroughoutIff` shows that these are all that keep the agreement.
- Storage.Storage.ReadBuffer: takes a size above 0; for 0 the code writes its terminator in front of the buffer.
- SchedulerRules.SchedulerRules.DeleteRule: takes a slot of the bitmap; past its end `bitset::test` throws, and the one caller with a free argument checks it first.
- Application.Application.Update: leaves out the dispense of MQTT_FEED_NOW, whose amount the code passes by the address of a handler's local variable.
- Netmgnt.WifiStation.ConnectToWifi: models the configured build, with Zephyr's Wi-Fi credentials library.
- Netmgnt.WifiStation.CheckCredentials: likewise.
- Netmgnt.Netmgnt.OnEntry: leaves out the disconnect request of a retry, whose only effect is a later driver callback, and the start of the MQTT thread.
- Netmgnt.Netmgnt.DispatchNext: leaves out the delivery to listeners, which is modelled with each listener.
- Mqtt.MQTT.Happens: reduces a publish on a rule topic to its announcement; its effect on the store is stated by OnMqttAddRuleTopic and OnMqttRemoveRuleTopic.
- Zephyr itself (kernel, ZMS, net_mgmt, sockets, DNS, Bluetooth, JSON, MQTT library, reboot): replaced by arbitrary answers; a refused ZMS write is taken to return no positive length.
- Steps of handlers are atomic except where the code sleeps or calls the driver; torn reads of the clock, of the bitmap word and of the credential structure are not modelled, and one CHECK pass reads one clock.
- The calendar date is a parameter of each poll; its agreement with the seconds, and SNTP synchronisation, are not modelled.
- Re-creation of the MQTT thread at every entry to CONNECTED: the session theorems are about one run of the thread.
- Retrying INIT of the MQTT client: `setup_client` always succeeds.
- Tables of 256 slots and more.
- The states SYNC_RTC and RESTART, which nothing enters; IFACE_ERROR reboots the device and is a final state here.
- LED, RSSI, logging, GPIO set-up, sensor sampling, TLS and the watchdog of the MQTT thread: input and output, or single branches.
