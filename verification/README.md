# Event loop, bitmap and interrupt routing: a verified model

This project models, in Dafny, the four state machines at the centre of a virtual machine monitor's support code, and
proves what they keep over whole runs:

- the **event loop** (`epoll/src/event_context.rs`, with `event_notifier.rs` and `utils.rs`): a registry of notifiers
  that must stay in step with the kernel's interest set, the batch dispatch of reported events, deferred freeing of
  removed notifiers, the timer queue, and the handshake that wakes a sleeping loop;
- the **virtual clock** (`epoll/src/timer.rs`);
- the **bitmap** (`utils/src/bitmap.rs`): words updated in place that stand for a finite set of numbers;
- the **interrupt routing table** (`hypervisor/src/interrupt.rs`): a least-free allocator on the bitmap and an ordered
  list of routes.

## How it is built

Code that updates fields in place is a class here too: `EventLoopContext` with boxed `EventNotifier` objects,
`ClockState`, `Bitmap` over an array of words, `IrqRouteTable`. Each method is proved against a function on values or a
statement about sets; the lemmas then say what whole runs keep. The functions that specify the timer and tick methods
of `EventLoopContext` are also the effects of the atomic steps in `WakeUp`.

| file | content |
|---|---|
| `Powers.dfy`, `BitOps.dfy`, `BitmapModel.dfy`, `BitmapSearch.dfy` | words of 8, 16, 32 or 64 bits and the integers they are; range updates as painting; rank and search as statements about sets |
| `Bitmap.dfy` | the class |
| `IrqRouteModel.dfy`, `IrqRouteTable.dfy`, `GsiHistories.dfy` | routes as an ordered multimap, the class, and every history of one table |
| `EventModel.dfy`, `EventLaws.dfy` | registry and interest set, one operation at a time, with every failure of `epoll_ctl` |
| `EventDispatch.dfy`, `EventRuns.dfy`, `EventRoundTrips.dfy` | a batch of events, whole runs, operations that undo each other |
| `EventOutcomes.dfy` | what each operation, list, batch and turn comes to, in every case and field by field |
| `EventRecords.dfy`, `EventExamples.dfy` | what the helpers leave behind when they fail; an orphan and a dangling pointer |
| `EventContext.dfy`, `EventHelpers.dfy` | the classes, with object identity and garbage |
| `TimerModel.dfy`, `WakeUp.dfy`, `EventFd.dfy`, `ClockState.dfy` | timer queue and its histories, the handshake as atomic steps, the eventfd counter, the clock |

The outside world enters as parameters. Every call of `epoll_ctl` may fail for reasons of its own with any code; the
one exception is that a deletion does not claim a watched descriptor to be unwatched (`EBADF`, `ENOENT`, `EPERM`).
Descriptors may be closed behind the loop's back at any time, between the operations of a list and while handlers of a
batch run included; the kernel then drops their entries. Handlers are arbitrary functions of (position in the batch,
position among the notifier's handlers, callback, mask, descriptor) to lists of requested operations. The
kernel reports any events for any watched descriptors in any order. The clock, the outcome of `ppoll` and
`epoll_wait`, the allocator's addresses and the hypervisor's answer to the capability query are arguments.

## Where the code differs from what is said about it

- **Searches miss bits.** `find_next_zero` and `find_next_bit` promise the next such bit from an offset. A word that
  is passed over with `continue` (`utils/src/bitmap.rs:290-292`, `313-315`) does not reset the start position, so lower
  bits of the next words are skipped. `FoundIsNext` gives the exact condition, `HiddenZeroExample` and
  `HiddenBitExample` an input each.
- **`contain` panics at `num == vol()`**: the guard at line 233 is `>`. `GuardMissesVolume` shows that this is the only
  number it lets through wrongly; neither count nor searches ever ask for it.
- **The bitmap of interrupt numbers has 64 times the capacity** the hypervisor reports, as `Bitmap::new` counts words.
  The cast to `u32` in `allocate_gsi` is harmless exactly up to 2^32 numbers (`DistinctExactly`).
- **"This unwrap() will never fail"** (`hypervisor/src/interrupt.rs:116`) is wrong for a bitmap without a single word;
  `InitIrqRouteTable` returns whether it holds.
- **A failing add can leave an orphan**: the kernel watches a descriptor that the registry does not know, through a
  pointer to a freed notifier (`epoll/src/event_context.rs:126-142`). `OrphansExactly` says when; `OrphanStaysOut` says
  that the descriptor cannot be registered again until it is closed; `OrphanExample` and `DanglingExample` show it.
- **The two helpers cannot be retried**: after a failing `unregister_event_helper` the record still names descriptors
  that are gone, so that every further attempt fails at the first of them and the rest stays registered
  (`FailedUnregister`, `RetriesInVain`). A failing `register_event_helper` leaves its successful prefix registered and
  unrecorded (`FailedRegister`).
- **The loop can oversleep a timer** by the time between reading its expiry and going to sleep, since `ppoll` gets a
  relative timeout: unless a timer is deleted meanwhile, it is on time only if no time passes in between
  (`OnTimeExactly`, `LateWaitExample`).
- **The loop can sleep through an exit request** that comes between its look at the exit flag and its reset of
  `kicked`: exactly those that a second look, right after the reset, would show (`ExitMissedExactly`,
  `ExitCanBeMissed`, `ExitMissedExample`).
- **A failing wait leaves `kick_me` set**, until a later wait succeeds (`EpollWaitManager`).
- **A stopped virtual clock reads `elapsed`**, the time spent stopped, not the virtual time that the source's own test
  asks for (`DisabledReading`, `DisabledReadingExample`).
- **A failing update list does not wake the loop**: its successful prefix takes effect all the same (`UpdateEvents`,
  `UpdatePrefix`).

## Model

| member | source | states |
|---|---|---|
| EventLaws.ApplyHolds | epoll/src/event_context.rs:106-232 | Whatever one operation does and however it fails, afterwards each registered descriptor the kernel watches is Alive with its own mask and box, orphans point to freed boxes only, nothing Alive becomes unwatched, no box is freed, and the orphans grow by exactly the descriptor of a given-up add |
| EventLaws.AddFreshOutcome | epoll/src/event_context.rs:126-145 | The three outcomes of a fresh add: refused and nothing happened; accepted by the kernel and given up, leaving the entry behind; or done, with the displaced descriptor parked |
| EventLaws.AddFreshHolds | epoll/src/event_context.rs:126-145 | A fresh add keeps the invariant and orphans its descriptor exactly when it is given up after the kernel accepted it |
| EventLaws.MergeHolds | epoll/src/event_context.rs:107-125 | Merging a shared notifier keeps mask, status and box in step with the kernel, also when the modification fails |
| EventLaws.ParkHolds | epoll/src/event_context.rs:159-172 | Parking keeps registry and interest set in step on success and on failure |
| EventLaws.ResumeHolds | epoll/src/event_context.rs:174-187 | Resuming keeps registry and interest set in step on success and on failure |
| EventLaws.RmOutcome | epoll/src/event_context.rs:189-232 | Deletion either is refused by the kernel and changes nothing, or retires the box whether or not the kernel still watched the descriptor and then rewatches what it had displaced |
| EventLaws.RmHolds | epoll/src/event_context.rs:189-232 | Deletion keeps the invariant on every return path, including the failing implicit resume after the box was retired |
| EventLaws.UnparkHolds | epoll/src/event_context.rs:215-227 | The implicit resume of a displaced descriptor keeps the invariant |
| EventOutcomes.AddOutcome | epoll/src/event_context.rs:126-145 | Every case of a fresh add with its error and the whole new state: the box takes over mask, handlers and displaced descriptor and is Alive, the kernel gets its mask and address |
| EventOutcomes.ExclusiveOutcome | epoll/src/event_context.rs:108-111 | An exclusive add of a registered descriptor is refused with `BadNotifierOperation` and changes nothing |
| EventOutcomes.MergeOutcome | epoll/src/event_context.rs:107-125 | A shared add of a registered descriptor unites the masks and appends the handlers; the kernel is asked only for a different mask, and its refusal changes nothing |
| EventOutcomes.ModifyOutcome | epoll/src/event_context.rs:148-157 | The handlers are replaced and nothing else, or the descriptor is unknown |
| EventOutcomes.ParkOutcome | epoll/src/event_context.rs:159-172 | When parking fails, with which error, and what it does otherwise |
| EventOutcomes.ResumeOutcome | epoll/src/event_context.rs:174-187 | When resuming fails, with which error, and what it does otherwise |
| EventOutcomes.DeleteOutcome | epoll/src/event_context.rs:189-232 | Every case of a deletion with its error and the whole new state: tolerated and fatal kernel errors, the box at the end of the garbage, the displaced descriptor watched again with its own mask and address or not |
| EventOutcomes.DeleteUnknown | epoll/src/event_context.rs:228-230 | Deleting an unknown descriptor fails with `NoRegisterFd` and changes nothing |
| EventOutcomes.ListOutcome | epoll/src/event_context.rs:93-105 | The operations of a list take place one after the other until one has failed |
| EventRuns.UpdatePrefix | epoll/src/event_context.rs:93-105 | An update list applies exactly its successful prefix and then the first failing operation's own effect, and nothing more |
| EventRuns.RunHolds | epoll/src/event_context.rs:93-250 | Over every run of update lists, turns of the loop and outside closes, which may fall into the middle of a list or of a batch: the invariant holds, only closed descriptors are Alive and unwatched, only given-up adds leave orphans, and only closed orphans cease to be |
| EventRuns.RegistryAgreement | epoll/src/event_context.rs:106-232 | The same from an empty loop, spelled out: watched and registered means Alive with the same mask and box; Alive and never closed means watched; watched and never given up means registered |
| EventRuns.NoOrphansOverRuns | epoll/src/event_context.rs:126-145 | With nothing closed outside and no add given up, the interest set is exactly the Alive descriptors, after every run |
| EventRuns.OrphansExactly | epoll/src/event_context.rs:126-145 | An operation leaves an orphan if and only if it is an add of a fresh descriptor accepted by the kernel whose displaced descriptor is unregistered, unwatched or cannot be dropped; it is then one descriptor and the call failed |
| EventRuns.OrphanStaysOut | epoll/src/event_context.rs:126-145 | An orphan stays one, and so unregistered, through every action in which its descriptor is not closed |
| EventExamples.OrphanExample | epoll/src/event_context.rs:126-141 | An add that displaces an unregistered descriptor fails on an empty loop and leaves its own descriptor watched |
| EventExamples.DanglingExample | epoll/src/event_context.rs:350-354 | The event then reported for it carries a pointer to a freed notifier |
| EventDispatch.DispatchSafety | epoll/src/event_context.rs:350-373 | The box of a reported event has not been freed when its turn comes, whatever earlier handlers did, if and only if its descriptor was no orphan at the wait |
| EventDispatch.WholeBatchSafe | epoll/src/event_context.rs:340-373 | With no orphan at the wait, every pointer of the batch is good at the moment it is used |
| EventDispatch.BatchHolds | epoll/src/event_context.rs:350-370 | Between any two entries of a batch the invariant is kept and every allocated box stays allocated |
| EventOutcomes.EntryOutcome | epoll/src/event_context.rs:350-369 | What the handlers of an Alive notifier ask for is applied to the state they ran in before the next entry is taken up, and ticks exactly if all of it succeeds; any other notifier asks for nothing |
| EventOutcomes.RequestsExactly | epoll/src/event_context.rs:356-362 | A request is applied if and only if some handler of the notifier answered it |
| EventOutcomes.RequestsInOrder | epoll/src/event_context.rs:356-362 | The answers stand whole, in handler order, each behind those before it, with nothing else |
| EventOutcomes.WaitOne | epoll/src/event_context.rs:340-354 | An event of a watched descriptor comes with its mask and the pointer handed over at registration |
| EventOutcomes.WaitInOrder | epoll/src/event_context.rs:340-354 | Events come one after the other, none lost or added |
| EventOutcomes.TurnOutcome | epoll/src/event_context.rs:350-375 | After the batch half of the garbage, rounded up, is freed from the front, and nothing else |
| EventDispatch.NoDispatchAfterRemoval | epoll/src/event_context.rs:210-213 | A notifier removed earlier in a batch runs no handler later in it |
| EventDispatch.NoDispatchWhileParked | epoll/src/event_context.rs:357-365 | A notifier parked earlier in a batch and not resumed since, explicitly or by a deletion, runs no handler later in it |
| EventDispatch.NewBoxGetsNoOldEvent | epoll/src/event_context.rs:350-354 | A notifier registered during a batch gets none of its events, even on a descriptor that was reported |
| EventRoundTrips.AddThenDelete | epoll/src/event_context.rs:126-145 | Adding a fresh descriptor, with or without a displaced one, and deleting it restores registry and interest set; the garbage grows by that one box |
| EventRoundTrips.ParkThenResume | epoll/src/event_context.rs:159-187 | Parking a watched descriptor and resuming it is the identity |
| EventRoundTrips.CloseThenDelete | epoll/src/event_context.rs:189-232 | A descriptor closed outside leaves the registry when deleted; the deletion succeeds if and only if a descriptor it had displaced, if any, is another registered and unwatched one, which is then watched again |
| EventRoundTrips.CommuteDropAdd | epoll/src/event_context.rs:126-227 | Deleting one descriptor and adding an unrelated one commute |
| EventRoundTrips.DeletesUndoAdds | epoll/src/event_context.rs:93-105 | Deleting a whole list of added descriptors in the order they were added leaves what was there before, although parking and unparking interleave |
| EventRoundTrips.RegisterThenUnregister | epoll/src/utils.rs:7-25 | For any list of fresh distinct descriptors with distinct displaced ones outside the list, the two helpers succeed and restore registry, interest set and record |
| EventHelpers.RecordedEvents.Register | epoll/src/utils.rs:7-16 | Appends the descriptors in order exactly when the whole update succeeded |
| EventHelpers.RecordedEvents.Unregister | epoll/src/utils.rs:18-25 | Deletes what was recorded, and forgets it exactly when every deletion succeeded |
| EventRecords.FailedRegister | epoll/src/utils.rs:7-16 | A failing registration leaves every descriptor of its successful prefix registered and the record as it was |
| EventRecords.FailedUnregister | epoll/src/utils.rs:18-25 | A failing unregistration keeps the whole record, whose first descriptor is still registered if and only if the kernel refused to drop that one |
| EventRecords.RetryFails | epoll/src/utils.rs:18-25 | With the first descriptor of the record gone, a retry fails at it with `NoRegisterFd` and deletes nothing |
| EventRecords.RetriesInVain | epoll/src/utils.rs:18-25 | So does any number of retries: registry and record stay as they are |
| EventHelpers.GetNotifierRawFds | epoll/src/event_notifier.rs:68-74 | One descriptor for each notifier, in order |
| EventHelpers.GetDeleteNotifiers | epoll/src/event_notifier.rs:76-88 | One deletion for each descriptor, in order, each without displaced descriptor or handlers |
| EventContext.EventNotifier.constructor | epoll/src/event_notifier.rs:33-49 | A boxed notifier starts Alive |
| EventContext.EventLoopContext.constructor | epoll/src/event_context.rs:51-66 | A new loop is empty, not kicked and not asking to be kicked |
| EventContext.EventLoopContext.InitTick | epoll/src/event_context.rs:68-80 | The loop's own eventfd becomes the first watched notifier unless the kernel refuses it |
| EventContext.EventLoopContext.AddEvent | epoll/src/event_context.rs:106-146 | In place, with boxes as objects, the new state and the error are those of the model on every path |
| EventContext.EventLoopContext.Merge | epoll/src/event_context.rs:108-125 | In place: flags united and handlers appended on success, both as before on failure, the mask written only after the kernel took it |
| EventContext.EventLoopContext.AddFresh | epoll/src/event_context.rs:126-145 | The in-place fresh add, the box entering the registry last |
| EventContext.EventLoopContext.ModifyEvent | epoll/src/event_context.rs:148-157 | Only the handlers are replaced |
| EventContext.EventLoopContext.ParkEvent | epoll/src/event_context.rs:159-172 | In-place parking |
| EventContext.EventLoopContext.ResumeEvent | epoll/src/event_context.rs:174-187 | In-place resuming |
| EventContext.EventLoopContext.RmEvent | epoll/src/event_context.rs:189-232 | In-place deletion: the box moves to the garbage, its status object updated where handlers still see it |
| EventContext.EventLoopContext.UpdateEvents | epoll/src/event_context.rs:93-105 | The list is applied as in the model, and the loop is ticked exactly when all of it succeeded |
| EventContext.EventLoopContext.Tick | epoll/src/event_context.rs:82-91 | `kicked` is set, and the counter rises by one, if it is not full, exactly when the loop asked for it, so that the eventfd is then readable |
| EventContext.EventLoopContext.PointerIsBox | epoll/src/event_context.rs:350-354 | A raw pointer to a box that was not freed is the very object the loop holds in its registry or garbage |
| EventContext.EventLoopContext.RunHandlers | epoll/src/event_context.rs:356-365 | Handlers run in order, and only for an Alive notifier; their requests are concatenated |
| EventContext.EventLoopContext.ServeEvent | epoll/src/event_context.rs:350-369 | One reported event, through its pointer: its handlers run and may empty the eventfd, their list is applied and ticks if it succeeds; an update error does not end the batch |
| EventContext.EventLoopContext.DispatchReady | epoll/src/event_context.rs:350-369 | The batch in turn, each entry seeing registry and wake-up flags as the entries before it left them |
| EventContext.EventLoopContext.Dispatch | epoll/src/event_context.rs:350-369 | A whole batch reported to a loop without orphans: final registry, interest set, garbage, `kicked` and eventfd counter, and no pointer used dangles |
| EventDispatch.KickExactly | epoll/src/event_context.rs:82-105 | A batch leaves the loop kicked if and only if it was before or some entry's list succeeded. Without `kick_me` the counter never grows; with it the eventfd ends readable if and only if it was and stayed so, or a list succeeded after the last time it was emptied |
| EventContext.EventLoopContext.WaitForEvents | epoll/src/event_context.rs:311-348 | A real wait takes place only when no tick came since the reset, and `epoll_wait` gets 0 or, for a wait without timeout, -1; which failures end the turn; `kick_me` is cleared on success and left set on failure |
| EventContext.EventLoopContext.EpollWaitManager | epoll/src/event_context.rs:311-375 | One turn: it fails exactly with its waits, and then leaves everything but `kick_me` as it was, which stays set if a wait was announced; otherwise dispatch with its effect on `kicked` and the counter, then the due timers in order, then garbage |
| EventContext.EventLoopContext.GcClean | epoll/src/event_context.rs:238-250 | The oldest half of the garbage, rounded up, is freed |
| EventRuns.CollectLeaves | epoll/src/event_context.rs:238-250 | After any number of collections the newest boxes are left, in order, as many as repeated halving leaves |
| EventRuns.GarbageLifetime | epoll/src/event_context.rs:238-250 | Without new removals n boxes are gone after exactly ⌊log2 n⌋ + 1 collections, and not before |
| WakeUp.RunHolds | epoll/src/event_context.rs:82-91 | The invariant of the handshake over every interleaving of one waiter and any number of tickers |
| WakeUp.WaitIsSteps | epoll/src/event_context.rs:311-348 | The atomic steps of one wait, with nobody in between, are enabled in turn and leave `kick_me` as the method `WaitForEvents` does, on success and on failure |
| WakeUp.SleepIsPolled | epoll/src/event_context.rs:323-344 | Those steps include a real wait if and only if `ppoll` or `epoll_wait` is asked for one, of that length |
| WakeUp.BlockingIsSleep | epoll/src/event_context.rs:336-344 | `epoll_wait` blocks only as the sleeping step of a wait without timeout, and then without end |
| WakeUp.TickIsSteps | epoll/src/event_context.rs:82-91 | The atomic steps of one tick, with nobody in between, are enabled in turn, set `kicked`, write the eventfd if and only if `kick_me` is set, and do nothing else |
| WakeUp.AddStep | epoll/src/event_context.rs:252-265 | A published timer is pending beside all others |
| WakeUp.DeleteStep | epoll/src/event_context.rs:270-279 | A deletion takes out one timer of that name if there is one, and no other |
| WakeUp.DueStep | epoll/src/event_context.rs:292-309 | Running timers leaves exactly those that are not due |
| WakeUp.TurnIsSteps | epoll/src/event_context.rs:281-348 | The same from the reset of `kicked` on, with the timeout of `timers_min_duration` |
| WakeUp.NoLostWakeUp | epoll/src/event_context.rs:311-348 | If the loop is committed to a real wait and a tick stored `kicked` after the last reset, the eventfd is readable or a ticker that sees `kick_me` is still about to write it |
| WakeUp.TickerDelivers | epoll/src/event_context.rs:82-91 | Such a ticker's own next steps make the eventfd readable |
| WakeUp.OthersDoNotInterfere | epoll/src/event_context.rs:82-91 | No step of anyone else keeps it from doing so |
| WakeUp.NothingPublishedUnseen | epoll/src/event_context.rs:281-348 | A loop waiting with no tick in flight and an empty eventfd has seen everything published before |
| WakeUp.TimersCovered | epoll/src/event_context.rs:252-290 | In such a wait every pending timer, added concurrently or not, expires no earlier than the timeout counted from its reading |
| WakeUp.SleepDeadline | epoll/src/event_context.rs:311-334 | A quiet wait outlasts no pending timer by more than the delay between reading the expiry and going to sleep |
| WakeUp.OnTimeExactly | epoll/src/event_context.rs:281-334 | In every run in which no timer was deleted since the timeout was read, a quiet timed wait ends in time for every pending timer if and only if it began at the instant of the reading |
| WakeUp.DeletionAddsSlack | epoll/src/event_context.rs:270-279 | A deletion during the wait leaves the deadline as it is and never makes it late |
| WakeUp.LateWaitExample | epoll/src/event_context.rs:324-334 | A run in which a timer due at 10 is slept through until 15 |
| WakeUp.ExitMissedExactly | epoll/src/event_context.rs:377-387 | A quiet wait has missed an exit request if and only if the flag was already set right after the last reset of `kicked` |
| WakeUp.ExitCanBeMissed | epoll/src/event_context.rs:377-387 | Conversely, every run that ends in a reset with the flag set, no tick in flight, an empty eventfd and no timer due goes on to such a wait |
| WakeUp.ExitMissedExample | epoll/src/event_context.rs:377-387 | A run in which this happens |
| EventContext.EventLoopContext.TimerAdd | epoll/src/event_context.rs:252-268 | The timer goes behind all that expire no later, then the loop is ticked |
| EventContext.EventLoopContext.TimerDel | epoll/src/event_context.rs:270-279 | The first timer with that id is taken out, if there is one |
| EventContext.EventLoopContext.TimersMinDuration | epoll/src/event_context.rs:281-290 | `kicked` is reset and the time to the first expiry returned, never negative |
| EventContext.EventLoopContext.RunTimers | epoll/src/event_context.rs:292-309 | The due prefix is taken out and run in order |
| TimerModel.MinDurationIsLeast | epoll/src/event_context.rs:281-290 | On a sorted queue the timeout reaches no further than any pending expiry, is zero exactly when some timer is due, and otherwise ends at some expiry |
| TimerHistories.QueueHolds | epoll/src/event_context.rs:252-309 | Over every history the queue is sorted with ties in order of addition, and added = pending + fired + deleted as multisets |
| TimerHistories.FiresOnce | epoll/src/event_context.rs:292-309 | No timer fires twice or after its deletion |
| TimerHistories.RunsExactlyDue | epoll/src/event_context.rs:292-309 | Running timers takes exactly those that are due, in order |
| TimerHistories.DeletesExactly | epoll/src/event_context.rs:270-279 | In any history in which no timer is added at a pending one's address, deleting a pending timer by address takes out exactly that timer |
| TimerHistories.OrderIsUnique | epoll/src/event_context.rs:252-266 | The queue is determined by its contents: it is the one stable sorted arrangement |
| Clock.ClockState.constructor | epoll/src/timer.rs:39-48 | A new clock is stopped at zero |
| Clock.ClockState.GetVirtualClock | epoll/src/timer.rs:51-57 | The reading of the model |
| Clock.ClockState.Enable | epoll/src/timer.rs:59-62 | The transition of the model, with later calls still safe |
| Clock.ClockState.Disable | epoll/src/timer.rs:64-67 | The transition of the model, with later calls still safe |
| Clock.After | epoll/src/timer.rs:50-68 | Over any calls in any order with monotone time, no subtraction underflows |
| Clock.EnableResumes | epoll/src/timer.rs:59-62 | Whatever came before, an enabled clock reads on from `paused` |
| Clock.DisableFreezes | epoll/src/timer.rs:64-67 | Whatever came before, disabling stores in `paused` what a running clock reads |
| Clock.VirtualTime | epoll/src/timer.rs:50-68 | Over alternating calls the running clock reads the total time it ran, and a stopped one has that total in `paused` |
| Clock.DisabledReading | epoll/src/timer.rs:51-57 | A stopped clock reads the time it was stopped before it last ran, which is the virtual time if and only if the two totals agree |
| Clock.DisabledReadingExample | epoll/src/timer.rs:80-90 | Five seconds of running, then stopped: it reads 0 |
| BitOps.ShiftUpValue | utils/src/bitmap.rs:412-414 | On the integer a word stands for, `rhs` is multiplication by 2^k modulo 2^width |
| BitOps.ShiftDownValue | utils/src/bitmap.rs:416-418 | `lhs` is division by 2^k |
| BitOps.SameValue | utils/src/bitmap.rs:370-420 | Words of one width are equal exactly when their integers are |
| BitOps.NonZeroValue | utils/src/bitmap.rs:372-374 | `bool` says whether the integer is not zero |
| BitOps.OneAndFullValue | utils/src/bitmap.rs:380-390 | `one()` is 1, `full()` is 2^width - 1 |
| BitOps.BitOfValue | utils/src/bitmap.rs:396-410 | Bits are binary digits, so that the bitwise operations act on the integer's digits |
| BitOps.TestBit | utils/src/bitmap.rs:239-243 | A masked word is non-zero exactly when the tested bit is set |
| BitmapModel.IndexIsDivision | utils/src/bitmap.rs:344-350 | The model's index and position are quotient and remainder |
| BitmapModel.PaintedBits | utils/src/bitmap.rs:85-120 | Forcing the bits of an interval is union or difference of the sets the words stand for |
| BitmapModel.GuardMissesVolume | utils/src/bitmap.rs:232-244 | The bound check of `contain` is wrong for exactly one number, the volume |
| Bitmaps.Bitmap.constructor | utils/src/bitmap.rs:33-37 | A new bitmap is the empty set, with `size` words of room |
| Bitmaps.Bitmap.Set | utils/src/bitmap.rs:54-64 | Adds one number to the set, or fails exactly past the volume and changes nothing |
| Bitmaps.Bitmap.Clear | utils/src/bitmap.rs:127-140 | Removes one number, or fails exactly past the volume |
| Bitmaps.Bitmap.Change | utils/src/bitmap.rs:215-225 | Flips membership of one number, or fails exactly past the volume |
| Bitmaps.Bitmap.SetRange | utils/src/bitmap.rs:85-120 | In every outcome the union with the range clipped to the volume; success exactly when the range is empty or fits; the exact error; `start + len` never overflows where it is computed |
| Bitmaps.Bitmap.ClearRange | utils/src/bitmap.rs:163-198 | In every outcome the difference with the range; success, error and arithmetic as for setting |
| Bitmaps.Bitmap.Contain | utils/src/bitmap.rs:232-244 | Membership below the volume, an error above it |
| Bitmaps.Bitmap.CountFrontBits | utils/src/bitmap.rs:251-278 | The number of members below the offset, for every offset up to the volume |
| BitmapSearch.RankAdds | utils/src/bitmap.rs:251-278 | Counts over adjacent intervals add up |
| BitmapSearch.RankAfterFill | utils/src/bitmap.rs:85-120 | Setting an empty range below the offset raises the count by its length |
| Bitmaps.Bitmap.FindNextZero | utils/src/bitmap.rs:285-301 | The least zero the search can stop at, or the volume: at or past the start position in its word, or behind a word that was not full |
| Bitmaps.Bitmap.FindNextBit | utils/src/bitmap.rs:308-325 | The same for set bits and words that are not empty |
| BitmapSearch.FoundIsNext | utils/src/bitmap.rs:280-325 | The search returns the true next zero or bit if and only if no wanted bit hides below the start position of a word reached by passing others over |
| BitmapSearch.SafeStarts | utils/src/bitmap.rs:285-301 | A word-aligned offset, or a start word that is not passed over, is enough |
| BitmapSearch.HiddenZeroExample | utils/src/bitmap.rs:289-299 | Two 8-bit words with one zero, which a search from 1 does not find |
| BitmapSearch.HiddenBitExample | utils/src/bitmap.rs:312-322 | Two 8-bit words with one bit set, which a search from 1 does not find |
| Bitmaps.Bitmap.ClearAll | utils/src/bitmap.rs:338-342 | The set becomes empty |
| IrqRouteTables.IrqRouteTable.constructor | hypervisor/src/interrupt.rs:74-80 | An empty table with 64 numbers for each unit the hypervisor reports, none for a negative answer |
| IrqRouteTables.IrqRouteTable.InitIrqRouteTable | hypervisor/src/interrupt.rs:83-119 | The 40 boot routes are appended and the 24 pins taken; it completes exactly when the bitmap has a word |
| IrqRouteTables.IrqRouteTable.AddMsiRoute | hypervisor/src/interrupt.rs:135-149 | One entry is appended, field by field that of the vector, and numbers are untouched |
| IrqRouteTables.IrqRouteTable.RemoveIrqRoute | hypervisor/src/interrupt.rs:150-159 | The repeated search and removal terminates and is the order-preserving filter |
| IrqRouteTables.IrqRouteTable.UpdateMsiRoute | hypervisor/src/interrupt.rs:162-168 | The filter, then one appended entry |
| IrqRouteTables.IrqRouteTable.AllocateGsi | hypervisor/src/interrupt.rs:170-174 | Takes the least free number and returns its low 32 bits; fails exactly when none is free, changing nothing |
| IrqRouteTables.IrqRouteTable.ReleaseGsi | hypervisor/src/interrupt.rs:175-181 | Frees the number and drops its routes, or fails past the capacity and does neither |
| IrqRouteTables.IrqRouteTable.GetIrqRouteEntry | hypervisor/src/interrupt.rs:186-195 | The entries of one number, in order |
| IrqRouteTables.FoundIsLeastFree | hypervisor/src/interrupt.rs:170-174 | Searching from 0 is the least free number, in spite of the search's flaw |
| IrqRouteModel.PickMembers | hypervisor/src/interrupt.rs:150-159 | Filtering keeps exactly the entries of other numbers, or looks up exactly those of this one |
| IrqRouteModel.BootLookup | hypervisor/src/interrupt.rs:83-119 | Numbers 0-7 lead to the master's pins, 8-15 to the slave's 0-7, and 0-23 to the I/O APIC's, in that order |
| IrqRouteModel.AllocateOutcome | hypervisor/src/interrupt.rs:170-174 | For any table the least free number is taken and its low 32 bits returned, or none is free and nothing changes |
| IrqRouteModel.ReleaseOutcome | hypervisor/src/interrupt.rs:175-181 | For any table a release frees the number and drops exactly its routes, or lies past the capacity and does nothing |
| GsiHistories.HeldNumbersDistinct | hypervisor/src/interrupt.rs:170-181 | Over every history clients hold pairwise distinct numbers, and the taken ones are theirs and the pins not released |
| GsiHistories.AllocationIsLeastFree | hypervisor/src/interrupt.rs:170-174 | After every history an allocation is the least free number, none below 24 unless that pin was released, and fails exactly when every number is taken |
| GsiHistories.DistinctExactly | hypervisor/src/interrupt.rs:173-173 | Distinctness over all histories holds if and only if 64 times the reported count is at most 2^32 |
| GsiHistories.ReleaseThenAllocate | hypervisor/src/interrupt.rs:170-181 | After a release the next allocation is the lesser of the released and the previously least free number |
| GsiHistories.RoutesStayTaken | hypervisor/src/interrupt.rs:135-181 | In every history after the initialisation in which clients route only numbers that are taken, no route ever outlives its number |
| GsiHistories.UpdateThenLookup | hypervisor/src/interrupt.rs:162-168 | After an update its number has exactly one entry, with the vector's address words and data in their places, and every other lookup is unchanged |
| GsiHistories.ReleaseThenLookup | hypervisor/src/interrupt.rs:175-181 | After a release its number has no entry and every other lookup is unchanged |

## Left out

- EventContext.EventLoopContext.EpollWaitManager: requires that no orphan is registered; with one the source reads a freed notifier, which has no meaning here (`DispatchSafety` says exactly when that happens).
- EventContext.EventLoopContext.WaitForEvents: the batch is not cut at the source's fixed number of ready events; any batch is covered.
- WakeUp.OthersDoNotInterfere: safety and enabledness only; that a ticker is scheduled at all is not modelled.
- Reuse of freed addresses: boxes carry ids that are never used again, so an orphan's pointer that comes to point at a newer notifier is not modelled; dispatch through an orphan is excluded either way.
- EventRuns.RunHolds: a descriptor closed between the two system calls of one operation counts as closed before or after the operation, as the calls concern different descriptors.
- A second descriptor of a closed file: closing is taken to end the kernel's entry, so deletions failing with `EBADF` while the entry lives on through a duplicate are not modelled.
- Other threads calling the loop: `tick`, `timer_add` and `timer_del` of other threads are steps in `WakeUp`; the class `EventLoopContext` is one thread's view, and reads of `kicked` inside one turn see the value at its start.
- Calls back into the loop from inside a handler, which would take the status lock twice or change the registry under the batch.
- `EventLoop`, its global instance and thread creation, `EventLoopManager` clean-up, and the polling loop before an I/O thread's wait: plumbing around the modelled core. Only the second computation of the timeout by an I/O thread is kept.
- `handler_poll`, `get_data` and `value`, log messages, error texts and contexts, the names of loops, and the constants of other architectures: they would add easy members only.
- The kernel's part of `read_fd`: emptying the eventfd is one step in `WakeUp`.
- Overflow of instants and durations: time is an unbounded natural number of nanoseconds.
- Machine integers as such: words are vectors of bits with the trait's operations defined bit by bit; the `Value` lemmas of `BitOps` relate them to integers of that width.
