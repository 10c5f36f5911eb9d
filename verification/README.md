# vitaQmBluetooth, modelled and proved

vitaQmBluetooth puts the PS Vita's registered Bluetooth devices on the Quick Menu. A kernel
module translates the Bluetooth stack's events and puts them into a 16-slot ring without locks;
a user module's thread drains the ring, keeps the state of eight buttons, and re-reads the world
when it finds that events were lost. This project models both modules and proves what they
promise each other.

How it is laid out:

- `Vqmbt`, `QmState`: the shared types, and what each request leaves on the menu, as values.
- `RingBuffer`, `BtEvent`, `Bluetooth`, `QuickMenuState`, `EventThread`: the C files in place, with
  their arrays, counters, loops and `changed` flags. The contracts say what each call leaves behind.
- `Channel`, `EventLoop`: the same code as state machines whose steps are single loads, stores and
  word copies. A schedule (a sequence of steps, together with what every outside call answers)
  fixes one interleaving; a step that is not enabled does nothing, so a statement about all
  schedules is a statement about all interleavings. Words of an event are copied in any order.
  Memory is sequentially consistent.
- `ChannelTheorems`, `ChannelRefill`, `EventLoopHistory`, `EventLoopSnapshot`, `EventLoopTheorems`,
  `EventLoopProgress`, `EventLoopWrap`: the ring's and the system's guarantees over every schedule.
  `LosingRuns`: concrete schedules that show why their conditions are there.
- `MenuRuns`, `MenuMutex`, `Addressing`: the menu's guarantees over every sequence of requests,
  over every interleaving of its callers, and from address bytes to buttons.
- `MenuLaws`, `EventLaws`: what the numbers mean, said without the functions that compute it: kernel
  states to presses and labels, stack reports to events, requests and buttons.
- `ConcurrentMenu`: the event loop and the callers of the menu put together, both interleaved step
  by step.

Counters are unbounded in the reference machines and 32-bit in `RingBuffer` and in the machines
run with `wraps`; `WrapRefines` and `WrapRefinesSystem` connect the two for every run in which the
reader stays less than 2^32 events behind, and `WrapDecidesAlike` says exactly when that matters.

Where the code and its own comments or promises part, the model follows the code:

- The mid-read recheck admits a lag of exactly 16, at which the slot may be half overwritten by an
  event not yet published (`module_kernel/src/umod_callback.c:112-120`). `ExactExactlyBelowRing`
  gives the exact limit, `TornRead` a run that returns an event nobody emitted, and
  `ReadIsExactUnlessRefilled` says in each run which words are whose. A report of lost events can be
  torn like any other event, and then no reset follows: `TornReportIsSilent`.
- The read index is committed before the copy to user space
  (`module_kernel/src/umod_callback.c:121-128`), and the drain loop leaves without a reset when that
  copy fails; a snapshot that fails leaves the flush before it in force
  (`module_user/src/quickmenu.c:57-72`). `FailedCopyIsSilent` and `FailedSnapshotIsSilent` are such
  runs; `SilentLossExactly` says which failed calls lose something, and that nothing else does. The
  next snapshot that works makes all of it good, and the other guarantees hold again from there on.
- Turning Bluetooth on does not move every non-empty button out of the off state, as the comment at
  `module_user/src/qm_state.c:302` says: see `OnLeavesOffExactly`. The cached device state it consults
  is not refreshed while the address stays the same: see `CacheIsFrozen`, `OffOnRestores` and
  `TurningOnRemembersPast`; `ForgetsPastExactly` says when it matters.
- A bulk update settles every slot "regardless of prior states" (`module_user/src/qm_state.c:361`)
  only if Bluetooth is on or no listed address is zero: see `BulkConvergesExactly`.
- Events of a device whose address has a zero half never reach its button: see `EventsFindTheirButton`.

## Model

| member | source | states |
|---|---|---|
| Channel.StepKeepsInv | module_kernel/src/umod_callback.c:47-131 | every single step of emit and read, in any interleaving, keeps the ring's invariant: the last 16 events are in their slots except for words already overwritten by the event being filled, and every word the reader holds is its event's, the event 16 later's, or from an overrun slot |
| Channel.ReloadKeepsInv | module_kernel/src/umod_callback.c:112-120 | passing the recheck turns that into provenance: each word belongs to the event read or to the one 16 later, and below lag 16 the whole event is the one read |
| ChannelTheorems.ReadIsExact | module_kernel/src/umod_callback.c:112-130 | in every interleaving a read about to return 1 returns exactly the event at the read index if the recheck saw a lag below 16; at lag 16 each word is that event's or the one's 16 later; the id is never NONE |
| ChannelTheorems.ExactExactlyBelowRing | module_kernel/src/umod_callback.c:115-120 | among the lags the recheck admits (1 to 16), exactness in every interleaving holds if and only if the lag is below 16 |
| ChannelTheorems.TornRead | module_kernel/src/umod_callback.c:53-56 | the run that shows the limit: at lag 16 the event returned has the id of the event in flight and the address of the old one |
| ChannelRefill.ReadIsExactUnlessRefilled | module_kernel/src/umod_callback.c:112-120 | in every interleaving a read about to return 1 has exactly the words of the event 16 later where they were refilled before being copied (lag 16 only) and its own elsewhere, so it is exact if and only if every refilled word happens to be the same in both events |
| ChannelTheorems.WrapRefines | module_kernel/src/umod_callback.c:53-121 | over every interleaving with lag below 2^32 the ring with 32-bit counters is the unbounded one with its indices reduced modulo 2^32: same decisions, slots, words and results |
| ChannelTheorems.WrapDecidesAlike | module_kernel/src/umod_callback.c:90-106 | the empty and overrun tests on 32-bit counters agree with the real lag if and only if it is below 2^32 or still looks overrun modulo 2^32 |
| ChannelTheorems.EmitCallEffect | module_kernel/src/umod_callback.c:53-61 | an emit that nothing interrupts, run step by step, fills its slot, advances the counter and sets the flag, and touches nothing else |
| RingBuffer.ReadCallEffect | module_kernel/src/umod_callback.c:79-131 | each path through an uninterrupted read, run step by step, ends in the state ReadEffect gives; the in-place method is proved to reach that same state |
| RingBuffer.RingBuffer.Emit | module_kernel/src/umod_callback.c:47-70 | an event with a real id is appended to the history and the ring becomes what the step machine's uninterrupted emit leaves; a null or NONE event is refused and changes nothing |
| RingBuffer.RingBuffer.ReadEvent | module_kernel/src/umod_callback.c:79-131 | result, read position and event returned for every argument and every lag, with the producer emitting while the slot is copied: empty, flush, overrun before and after the copy, commit, failed copy |
| Bluetooth.PackInverts | module_kernel/src/bluetooth.c:132-152 | packing six address bytes into two words loses nothing, and which byte lands where |
| Bluetooth.PackIsInjective | module_kernel/src/bluetooth.c:151-152 | distinct addresses give distinct pairs of words, and only the all-zero address gives two zeros |
| Bluetooth.Bluetooth.GetPairedDevices | module_kernel/src/bluetooth.c:106-168 | bad arguments and table errors write nothing; otherwise the caller's array gets exactly the records before the first failed copy, and the count is returned only if none failed |
| Bluetooth.RecordIsFaithful | module_kernel/src/bluetooth.c:126-157 | a record has the table entry's whole address, its name as far as it fits, and the state the stack reports for that address |
| Addressing.EventsFindTheirButton | module_user/src/qm_state.c:429-442 | after any past and a snapshot of distinct non-zero addresses, an event for any address at all finds the button of that address's table entry if it has one and neither its first four bytes nor its last two are all zero; every other event leaves the menu as it was |
| BtEvent.HandleEvent | module_kernel/src/bt_event.c:187-307 | which event, with which address, each of the stack's numbers (id, result, payload) puts into the ring, and which put none |
| BtEvent.EventCallback | module_kernel/src/bt_event.c:314-347 | the callback puts into the ring the translations of everything read, in order, with a dropped-events mark for each loss the stack reports, and stops at the first other error |
| BtEvent.EmissionAt | module_kernel/src/bt_event.c:177-180 | upstream reading j is found in the ring's history at a position fixed by the readings before it, and a reported loss is found there as DROPPED_EVENTS |
| EventLaws.ReadingMovesButtons | module_kernel/src/bt_event.c:206-306 | from the stack's numbers to the buttons: a connect result 0x00 makes the device's button Connected and any other result or a disconnect makes it Disconnected, unless Bluetooth is off there; the toggle payloads turn all of them on or off; every other report moves none |
| EventLaws.ReadingResets | module_user/src/quickmenu.c:101-119 | exactly a reported loss and report 0x07 ask for a reset |
| EventLaws.EventIsObeyed | module_user/src/quickmenu.c:96-156 | event by event, for every menu: only the slot the address is meant for moves, to which state, and when none does |
| EventLaws.ReportReachesButton | module_kernel/src/bt_event.c:207-268 | after any past and a snapshot taken with Bluetooth on, a report about a registered device changes exactly that device's button, to the state reported, if neither half of its address is zero |
| EventLoopHistory.AlwaysTiles | module_kernel/src/umod_callback.c:89-131 | in every reachable state of the whole system the settled indices are tiled without gap or overlap by handled, overrun, flushed and copy-lost stretches, and read index <= write index = events emitted |
| EventLoopTheorems.Conservation | module_kernel/src/umod_callback.c:98-128 | every settled index lies in exactly one of those stretches, and each overrun return discards at least 17 events |
| EventLoopTheorems.HandledInOrder | module_kernel/src/umod_callback.c:112-130 | handled indices strictly increase, and two handled events with none handled between them are neighbours exactly when nothing was recorded as overrun, flushed or lost between them |
| EventLoopTheorems.HandledProvenance | module_kernel/src/umod_callback.c:112-128 | every event the thread ever handled has that provenance, under any interleaving of the whole system |
| EventLoopTheorems.NoSilentLoss | module_user/src/kmod_event.c:44-78 | in every interleaving, whenever the thread waits or is about to read and no call has failed since the last snapshot was applied, every index below the read index was passed to the handler or was emitted before that snapshot began; what was passed is exactly what was emitted if the read saw a lag below 16 or each emit is one step |
| EventLoopTheorems.SilentLossAt | module_user/src/kmod_event.c:61-64 | in every interleaving and with any calls failing, whenever no reset is under way: a settled event not covered by the last snapshot is not handled if and only if, since that snapshot, the copy of that very event failed or a snapshot failed after a stretch holding it was overrun or flushed |
| EventLoopTheorems.SilentLossExactly | module_user/src/quickmenu.c:57-72 | for the whole history: every settled event is handled or covered if and only if no call that failed since the last applied snapshot was the copy of an event as late as that snapshot's beginning, or a snapshot after such an event was overrun or flushed |
| EventLoopTheorems.ResetIsFollowed | module_user/src/quickmenu.c:83-119 | in every interleaving, whenever no reset is under way, an event handled by a reset is covered by the last snapshot applied, or a snapshot of a reset after it failed |
| LosingRuns.FailedCopyIsSilent | module_kernel/src/umod_callback.c:121-128 | a concrete run: one failed copy loses an event no snapshot covers, and leaves another in the ring with the flag cleared and the thread waiting |
| LosingRuns.FailedSnapshotIsSilent | module_user/src/quickmenu.c:55-72 | a concrete run: an event asks for a reset whose flush discards a waiting event and whose snapshot then fails; the drain ends on an empty ring with that event neither handled nor covered |
| LosingRuns.TornReportIsSilent | module_kernel/src/umod_callback.c:53-56 | a concrete run in which no call fails: a report of lost events, read at lag 16 while its slot is overwritten, reaches the handler as a Bluetooth-on event, so that nothing resets and no snapshot covers the loss |
| EventLoopTheorems.UpstreamIsCovered | module_kernel/src/bt_event.c:320-344 | in every interleaving with no failed call since the last snapshot applied: every event the Bluetooth stack reported is passed on or covered by that snapshot, and every loss it reported is covered by a snapshot begun after the report was emitted, or the report was read at lag 16 with the id of the event 16 later; below lag 16, or with each emit one step, exactly as translated and without exception |
| EventLoopTheorems.NoLostWakeup | module_user/src/kmod_event.c:110-121 | while the thread waits after a clean drain, a non-empty ring means the flag is set or the producer is between publishing and setting it |
| EventLoopTheorems.DrainBound | module_user/src/kmod_event.c:44-78 | one run of the drain loop has gone round at most as often as events were emitted by now beyond the read index it started from; no step of anybody lowers the read index or takes it past the write index |
| EventLoopProgress.ThreadCatchesUp | module_user/src/kmod_event.c:44-130 | from every reachable state with the thread running, whatever the producer has half done, steps of the thread alone with working calls bring it to wait on an empty ring, and nothing fails on the way |
| EventLoopSnapshot.SnapshotIsAnswered | module_user/src/quickmenu.c:55-81 | in every run the last snapshot applied is accounted for step by step: its flush, its question and its answer came in that order, the flush passed exactly the events emitted when it read the write index, and the bulk update passes on exactly what the stack answered |
| EventLoopSnapshot.FailuresAreRecent | module_user/src/quickmenu.c:68-80 | in every run nothing counts as failed since the last snapshot exactly if every copy or snapshot that ever failed was followed by a snapshot that was applied |
| EventLoopTheorems.SinceSnapshot | module_user/src/quickmenu.c:55-156 | in every interleaving with no failed call since the last snapshot applied and every read since at a lag below 16 (or each emit one step): the menu's requests are some past, the bulk update of what that snapshot was answered, then (presses aside) exactly the requests of every event from the one its flush came up to, up to the read index, in order |
| EventLoopTheorems.PressesReachMenu | module_user/src/quickmenu.c:161-169 | in every run each press the user makes is among the menu's requests once and in order |
| EventLoopTheorems.MenuIsCurrent | module_user/src/quickmenu.c:55-156 | end to end under the same conditions, the addresses and button states shown are those of a menu that saw only what the last snapshot was answered and every event since, whatever was lost or failed before it, provided Bluetooth was not turned on since or no cached state was out of date at the snapshot |
| EventLoopWrap.WrapRefinesSystem | module_kernel/src/umod_callback.c:34-36 | the whole system with 32-bit counters makes the same moves as with unbounded ones on every schedule with lag below 2^32 |
| EventThread.EventThread.Reset | module_user/src/quickmenu.c:55-81 | a reset passes every event emitted before it began; if the stack answers, the menu gets one bulk update of exactly what it answered and earlier failures are wiped out; if not, nothing is told to the menu and a fault is recorded |
| EventThread.EventThread.HandleEvent | module_user/src/quickmenu.c:96-156 | a loss or a device added, removed or connecting takes exactly one snapshot; every other event moves the buttons as its kind says and touches nothing else |
| EventThread.EventThread.FetchEvents | module_user/src/kmod_event.c:44-78 | the drain loop terminates within the bound and ends with the ring empty or a failed call; if no call has failed since the last snapshot, every index is handled exactly or covered by it, and the menu has been told exactly that snapshot and the events since, with the producer emitting between system calls and between a read's copy and its recheck |
| EventThread.EventThread.Run | module_user/src/kmod_event.c:87-130 | a first reset, whose snapshot if it works is the first thing the menu is told, then a drain after every wake-up or timeout over any finite course of waits, with the same guarantees; after any drain the ring has been emptied unless a call failed |
| QuickMenuState.QuickMenuState.UpdateUi | module_user/src/qm_state.c:452-523 | for every state and request it returns true if and only if some slot's contents differ afterwards, and leaves buttons, widgets, first-run flag and kernel calls as Update gives |
| QuickMenuState.QuickMenuState.BulkUpdateAll | module_user/src/qm_state.c:366-420 | the loop over all slots, with its double write for new devices, reaches the closed form and sets `changed` if and only if something differs |
| QuickMenuState.QuickMenuState.Press | module_user/src/qm_state.c:268-299 | a press sends at most one kernel call, carrying the slot's own address, and moves only that slot |
| QuickMenuState.QuickMenuState.RefreshUi | module_user/src/qm_state.c:70-117 | every widget gets the label and colour its button's state calls for |
| QuickMenuState.QuickMenuState.FindMac | module_user/src/qm_state.c:429-442 | the first slot with the address, or the error for a zero half or an unknown address |
| MenuRuns.DisplayFollowsState | module_user/src/qm_state.c:508-516 | after the first request of any run, whatever the widgets showed before, every widget shows the current state, although redrawing is skipped when nothing changed |
| MenuRuns.Occupancy | module_user/src/qm_state.c:348-388 | over every run with real bulk addresses the occupied slots are the prefix as long as the last bulk count clamped to 0..8, and the others are empty with zeroed records |
| MenuRuns.OccupancyStep | module_user/src/qm_state.c:366-389 | a request keeps that shape if and only if it lists no zero address; no event, press or on/off request changes the prefix |
| MenuRuns.OffLatch | module_user/src/qm_state.c:125-210 | after Bluetooth goes off, no sequence of presses, device events and further off requests changes a slot, reports a change or sends the kernel anything |
| MenuRuns.CacheIsFrozen | module_user/src/qm_state.c:381-389 | an occupied slot's record is the whole record of the bulk update that last changed the slot's address; all later bulk updates listed the same address there |
| MenuRuns.OffOnRestores | module_user/src/qm_state.c:306-340 | off, anything latched, then on: the slot shows the frozen record's state if that is disconnected, connecting or disconnecting, and stays off for every other one |
| MenuRuns.OnLeavesOffExactly | module_user/src/qm_state.c:301-340 | in every run, turning on moves an off slot out of that state if and only if its frozen record's state is one of those three |
| MenuRuns.CommandsAreAddressed | module_user/src/qm_state.c:280-297 | in every run each command carries the current address of an occupied slot, connect only from Disconnected and disconnect only from Connected |
| MenuRuns.CommandsAreSeparated | module_user/src/qm_state.c:268-299 | between two commands for one slot some request that is not a press rewrote that slot's state |
| MenuRuns.BulkSettles | module_user/src/qm_state.c:366-420 | from any past, a bulk update of real addresses leaves in each slot the listed address and the mapped kernel state, off, or empty; repeating it reports no change and changes nothing |
| MenuLaws.SnapshotDecidesPress | module_user/src/qm_state.c:398-418 | after any past and a snapshot of real addresses with Bluetooth on, a press disconnects a device reported in state 3, 5 or 6, sends nothing for state 2 or 4 and shows it busy, and connects for every other state |
| MenuLaws.OffSnapshotSilencesPress | module_user/src/qm_state.c:391-396 | after a snapshot with Bluetooth off no press sends anything, and exactly the listed slots say that Bluetooth is disabled |
| MenuLaws.OffOnDecidesPress | module_user/src/qm_state.c:319-338 | off, anything latched, then on: only frozen state 1 makes a press connect, only 2 and 4 show busy, and for every other one the slot still says that Bluetooth is disabled |
| MenuLaws.LabelTellsPress | module_user/src/qm_state.c:77-114 | a button is enabled exactly when a press would send something, and its label says what and to which device |
| MenuLaws.LabelTellsAnswer | module_user/src/qm_state.c:247-298 | after a press the label says that the device is connecting or disconnecting, or the reason the kernel refused; no other button moves, and a press that sends nothing changes nothing |
| MenuRuns.BulkConvergesExactly | module_user/src/qm_state.c:360-420 | a bulk update makes any two pasts agree in every slot's address and state if and only if Bluetooth is on or it lists no zero address |
| MenuRuns.SnapshotForgetsPast | module_user/src/qm_state.c:360-420 | that agreement, and the kernel calls made, persist under every further request until Bluetooth is turned on |
| MenuRuns.ForgetsPastExactly | module_user/src/qm_state.c:301-420 | from a snapshot of real addresses on, every possible future makes the menu agree with one that saw only that snapshot if and only if, for each listed device, turning Bluetooth on would make the same of the cached state as of the listed one |
| MenuRuns.TurningOnRemembersPast | module_user/src/qm_state.c:319-338 | a concrete pair of pasts that the same snapshot, off and on leave in different states |
| MenuRuns.LookupInvertsAddress | module_user/src/qm_state.c:429-442 | with distinct registered addresses, looking up a slot's address finds that slot if and only if both halves are non-zero |
| MenuRuns.EventReachesItsSlot | module_user/src/qm_state.c:485-505 | a device event leaves every other slot as it was, and moves its own to the reported state unless Bluetooth is off |
| MenuMutex.AloneIsUpdate | module_user/src/qm_state.c:458-522 | a call stepped through slot by slot, kernel call by kernel call and widget by widget, uninterrupted, ends where Update says and returns whether anything changed |
| MenuMutex.Linearizable | module_user/src/qm_state.c:452-523 | every interleaving of any number of threads' calls gives the state, widgets, kernel calls and return values of running them one after another in lock order, each thread's in its own order, and two threads are never inside together |
| MenuMutex.EveryCallCompletes | module_user/src/qm_state.c:455-522 | from every state any interleaving reaches, some continuation completes every call of every thread, each in its own order, and leaves the mutex free |
| ConcurrentMenu.SnapshotInOrder | module_user/src/qm_state.c:452-523 | with the event thread's calls and the presses interleaved step by step, the order of the mutex, cut at the bulk update of what the last snapshot was answered, goes on with exactly the requests of the events since, presses among them |
| ConcurrentMenu.ConcurrentMenuIsCurrent | module_user/src/quickmenu.c:161-169 | end to end through the mutex: once the event thread has made its calls and the mutex is free, the widgets show the menu's state, and that is the state of a menu that saw only what the last snapshot was answered, the events since and the presses among them, under the proviso of MenuIsCurrent |

## Left out

- Weak memory: every step is sequentially consistent; the acquire and release orders are not modelled.
- Channel: the ring size is fixed at 16 and the number of slots at 8, as in the code.
- Thread and module start and stop, and event-flag creation, wrapping and deletion: short lifecycle code around calls that are not part of this model. One producer thread and one consumer thread are assumed, and the flag exists before the first event.
- EventThread.EventThread.FetchEvents: the producer emits whole events, between system calls and between a read's copy of the slot and its recheck, because EventLoop already covers every interleaving; the lag is assumed to stay below 2^32.
- EventThread.EventThread.Run: takes a finite list of wait outcomes, because the real loop runs until it is told to stop.
- EventLoopTheorems.SinceSnapshot: asks that reads since the snapshot saw a lag below 16, or that each emit is one step, because at lag 16 a half-filled slot can be returned, as TornReportIsSilent shows; NoSilentLoss and SilentLossExactly hold without that.
- EventLoopTheorems.MenuIsCurrent: after a Bluetooth-on request it needs the cached states to be current, because the code then consults them; ForgetsPastExactly shows that this is exactly what is needed.
- The error mapping of kvqmbt_connect_device and kvqmbt_disconnect_device: the kernel's answer to a press is a parameter.
- MenuMutex.Linearizable: a slot's transition is one step, although the code may write a slot's fields one by one.
- The Bluetooth stack, the copy to user space, waits and mutex calls are outside; their answers are parameters of the methods and of the schedule. The stack's table call is assumed to write no more entries than asked for.
- The unlocked static `paired_devices` array: one snapshot call at a time is assumed.
- Labels are values built from state, name, slot number and error; formatting, truncation, colours beyond enabled or not, widget registration, logging and log files are not modelled.
- The event-flag set call's failure is counted in EventLoop, but its log line is not.
