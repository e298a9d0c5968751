# Verified models of the RIL daemon library

This project models the stateful core of `ril/libril` in Dafny and proves what the code relies on:
the event loop and its wake-up pipe, the MAL server and the per-channel proxy workers, the
bookkeeping of requests and wake locks, the generation check that drops dead callbacks, the FCP
translator, the thread table and the SAP queue. `dafny verify dfyconfig.toml` checks all of it.

There are two kinds of model, and most parts have both.

* **The code in its own form.** Linked lists, arrays, buffers and counters are classes and arrays
  that methods update in place. Each method is proved against a specification of its whole new
  state.
* **Runs.** A component that several threads use is a step system: a `State`, a `Step` for every
  place where another thread may come in between, `Next`, and `IsRun` for any finite interleaving
  of steps from an initial state. Main results are about every state of every run. Methods that take
  a ghost state `s` and return `s'` are proved to be one step of that system (`Next(s, step, s')`),
  with the heap showing `s` before and `s'` after. What a step achieves is stated without the step
  system's own functions, as laws of their own (`ReleaseReleases`, `FiringStartsAWorker`,
  `MarkedByAnAck` and the like), and so is that threads are never stuck (`LoopGoesOn`, `ServerGoesOn`,
  `WorkerGoesOn`, `HolderGoesOn`, `SomeThreadGoesOn`).

| file | part |
|---|---|
| `Wrappers.dfy` | an optional value |
| `Clock.dfy`, `TimerQueue.dfy` | `timeval` arithmetic; the timer list as a sorted sequence |
| `EventLoop.dfy` | `ril_event.cpp`: both circular lists, the watch table, one round of the loop |
| `WakeupProtocol.dfy` | the loop thread, the adder threads and the pipe, over whole runs |
| `EventLoopSteps.dfy`, `EventLoopCollect.dfy` | the functions of `ril_event.cpp` as steps of that protocol |
| `EventLoopTimers.dfy` | what the callbacks of a round add to the timer list |
| `WakeLock.dfy` | the counted wake lock and its cancellable timers |
| `Bytes.dfy`, `MalFraming.dfy` | the MAL byte protocol as a pure parse, with its inverse |
| `MalTable.dfy` | the table of MAL requests in flight |
| `MalServer.dfy` | the MAL server over split and interrupted reads and writes; the retry loop |
| `MalMachine.dfy` | a MAL request against an asynchronous vendor |
| `Channels.dfy` | the RIL channels |
| `ProxyWorkers.dfy` | per-channel job queues and lazily started workers |
| `LockOrder.dfy` | who waits for which mutex |
| `PendingRequests.dfy` | pending-request lists, acks and completions |
| `ResponseGenerations.dfy` | installing and dropping response callbacks |
| `FcpTranslator.dfy` | FCP template to GET RESPONSE layout |
| `ThreadTable.dfy` | the move-to-front table of threads |
| `SapQueue.dfy` | the SAP request queue |

## What is assumed

* Memory allocation succeeds, and counters do not wrap.
* A `RequestInfo` token is not reused after it is freed, and the vendor completes each attempt at
  most once.
* The copy of `readFds` at the top of the event loop is one step, as is the read of the head of the
  timer list in `calcNextTimeout`; both run without the mutex. The search of `malClaim` and the filling
  of the slot in `malComplete` are two steps. The comparison and clearing of
  `s_last_wake_timeout_info` at the end of `userTimerCallback` are one step. A grab or a release of
  the wake lock is one step with its timer bookkeeping. The callback of a wake timer is three steps.
* Calls of `addThreadPid`, which takes no lock and runs on several threads, do not overlap.
* Six times the sim id of a MAL request fits an `int`.
* A callback id of -1 makes `userTimerCallback` run the callback directly.
* Times given to the event loop are normalised `timeval`s; a write to the wake-up pipe fails only
  with EINTR.
* Vendor code does not take a channel mutex again from inside a vendor call.
* `pRI->cancelled` is always 0: nothing in the repository sets it.

## Where a promise needs a condition

* *Lost wake-ups.* While the loop is in select, with an empty pipe and no adder about to write it, no
  timer is due before the sleep ends iff the first timer was not due at the clock reading, which is
  what `calcNextTimeout` tests (`WakeupProtocol.NoLostWakeup`). Otherwise the wait is 0 and select
  returns at once (`WakeupProtocol.ExpiredHeadIsTheException`).
* *Late MAL completions.* `malClaim` runs outside `s_malDoneMutex`. A completion that finds the slot
  for one request and fills it during a later one answers the wrong request
  (`MalMachine.LateFillAnswersTheNextRequest`). A step keeps the slot to the running request iff it is
  not such a late fill (`StepKeepsAllIffNotLate`), and a run does iff it has none (`OwnedIffInTime`).
  What is said of answers holds for all runs without a late fill; that every request is answered once,
  after ten attempts at most, holds for all runs (`EveryRequestIsAnswered`, `AtMostTenCalls`).
* *Watching a descriptor twice.* `ril_event_add` leaves the watch table well formed iff the descriptor
  was not watched before, or the table is full (`EventLoop.Loop.RilEventAdd`).
* *Wake lock.* A wake-timer callback reads its cancel flag before it takes the mutex. A grab in
  between loses its lock at once (`WakeLock.OvertakenGrabIsLost`). The equivalence of a held lock, a
  positive count and one armed timer survives a step iff the step is not the one of such a callback
  (`ExactUnlessOvertaken`); what holds regardless is in `HeldHasItsTimer` and `HoldIsBounded`.
* *MAL frames.* Concatenated frames parse back iff every payload has at most 65520 bytes
  (`MalFraming.FramesRoundTrip`).
* *Timed-out MAL answers* carry GENERIC_FAILURE, but may carry the text of an earlier or late attempt
  of the same request (`MalMachine.AnswerIsTheLastAttempt`).
* *FCP.* File sizes come back modulo 65536 and record lengths modulo 256
  (`FcpTranslator.TemplateRoundTrip`).
* *SAP queue.* A completion unlinks its own node iff no newer outstanding request has the same message
  id and token (`SapQueue.UnlinksItsOwnIffNotShadowed`, `SapQueue.EqualKeysUnlinkTheWrongNode`).

## Model

| member | source | states |
|---|---|---|
| Clock.FromTimespec | ril/libril/ril_event.cpp:101-107 | the clock reading is normalised and at most a microsecond behind the kernel's |
| Clock.TimerAdd | ril/libril/ril_event.cpp:43-51 | the sum in microseconds; one carry keeps normal times normal |
| Clock.TimerSub | ril/libril/ril_event.cpp:62-70 | the difference in microseconds; one borrow keeps normal times normal |
| Clock.TimerLess | ril/libril/ril_event.cpp:55-58 | on normal times the field-wise comparison is the order of microseconds |
| TimerQueue.LeadingBelowUnique | ril/libril/ril_event.cpp:175-182 | a walk that stops at the first entry not below a bound stops at one place only |
| TimerQueue.SweepIsExact | ril/libril/ril_event.cpp:175-182 | on a sorted list the expired prefix is exactly the expired entries |
| TimerQueue.InsertKeepsSorted | ril/libril/ril_event.cpp:306-312 | insertion keeps the order by deadline, newest first among equal deadlines |
| EventLoop.AddToList | ril/libril/ril_event.cpp:117-124 | four pointer writes turn the closed doubly linked chain into the chain with the event inserted at the place |
| EventLoop.RemoveFromList | ril/libril/ril_event.cpp:126-136 | the chain without the event is closed and doubly linked again, and the event's own links are null |
| EventLoop.EventList.Insert | ril/libril/ril_event.cpp:117-124 | the circular list represents the old sequence with one element inserted |
| EventLoop.EventList.Remove | ril/libril/ril_event.cpp:126-136 | the circular list represents the old sequence without that element |
| EventLoop.Loop.constructor | ril/libril/ril_event.cpp:246-254 | both lists start empty, disjoint and well formed; no descriptor is watched, and the watch table is empty |
| EventLoop.Loop.FindPlace | ril/libril/ril_event.cpp:306-310 | the search ends at the node in front of which the deadline belongs, or at the sentinel |
| EventLoop.Loop.RilTimerAdd | ril/libril/ril_event.cpp:291-317 | the timer list is the old one with the event at its place; sorted, well formed, disjoint from the pending list; without a relative time nothing changes |
| EventLoop.Loop.ProcessTimeouts | ril/libril/ril_event.cpp:163-185 | all expired timers, in deadline order, move to the end of the pending list, and no others |
| EventLoop.Loop.CalcNextTimeout | ril/libril/ril_event.cpp:220-243 | no wait iff there is no timer; otherwise the time to the first deadline, never negative |
| EventLoop.Loop.TakeFirst | ril/libril/ril_event.cpp:210-213 | the first event is unlinked and the node behind it is next; both lists and the watch table stay well formed |
| EventLoop.Loop.RunCallback | ril/libril/ril_event.cpp:214 | a callback that arms new timers and watches or unwatches descriptors leaves the loop well formed, with its timers in place; if it only arms timers, the watch table and readFds stay |
| EventLoop.Loop.FireFirst | ril/libril/ril_event.cpp:212-215 | one event leaves the pending list and is fired; its callback may arm timers and watch or unwatch descriptors, and the rest of the pending list stays |
| EventLoop.Loop.FirePending | ril/libril/ril_event.cpp:207-218 | terminates and fires exactly the events pending on entry, in order, whatever the callbacks arm, watch or unwatch |
| EventLoop.Loop.LargestFd | ril/libril/ril_event.cpp:148-157 | the scan yields a correct nfds for the watched descriptors |
| EventLoop.Loop.RemoveWatch | ril/libril/ril_event.cpp:139-161 | the slot is free, the descriptor unwatched, back-pointers, readFds and nfds still right |
| EventLoop.Loop.RilEventAdd | ril/libril/ril_event.cpp:270-288 | the event takes the lowest free slot and is watched; a full table changes nothing; the table stays well formed iff the descriptor was not watched before |
| EventLoop.Loop.RilEventDel | ril/libril/ril_event.cpp:320-334 | a watched event is unwatched; an unwatched one is left alone |
| EventLoop.Loop.ServeSlot | ril/libril/ril_event.cpp:194-200 | a ready event is queued once and stays watched iff it is persistent |
| EventLoop.Loop.ProcessReadReadies | ril/libril/ril_event.cpp:187-205 | every ready watched event is queued exactly once, in slot order, and those that are not persistent stop being watched; the countdown never ends the scan early |
| EventLoop.MarkedIsInSlotOrder | ril/libril/ril_event.cpp:192-201 | what is queued are the ready slots, each once, in increasing order |
| EventLoop.Loop.Collect | ril/libril/ril_event.cpp:382-385 | after select, the expired timers and then the ready descriptors are pending |
| EventLoop.Loop.Iterate | ril/libril/ril_event.cpp:382-387 | one round fires exactly what was collected, in order, leaves nothing pending, and establishes what the next round needs; unless callbacks watch or unwatch, the table loses exactly the ready events that are not persistent, and readFds their descriptors |
| EventLoopTimers.CallbacksOnlyAddTheirTimers | ril/libril/ril_event.cpp:207-218 | the deadlines that wait after any number of callbacks are those before and those a callback asked for, none lost, none made up |
| WakeupProtocol.NextKeepsTimersCovered | ril/libril/ril_event.cpp:220-243 | between the unlocked read of the head and select, every timer that would be missed has a byte in the pipe or an adder about to write one |
| WakeupProtocol.NextKeepsFdsCovered | ril/libril/ril_event.cpp:360-361 | between the unlocked copy of readFds and select, every descriptor that the copy lacks has a byte in the pipe or an adder about to write one |
| WakeupProtocol.NoLostWakeup | ril/libril/ril_event.cpp:220-243 | in select with an empty pipe and no adder about to write, no timer is due before the sleep ends iff the first timer was not due at the clock reading; so for every wait other than 0 |
| WakeupProtocol.NoLostDescriptor | ril/libril/ril.cpp:652-655 | in select, every watched descriptor is selected, or the pipe is readable, or an adder has yet to write; the pipe always is selected |
| WakeupProtocol.ExpiredHeadIsTheException | ril/libril/ril_event.cpp:238-241 | a run in which the head is due before the clock reading, so that the promise fails, and select returns at once |
| WakeupProtocol.NeverOversleeps | ril/libril/ril_event.cpp:358-388 | while select may still block and no adder is under way, no timer is overdue |
| WakeupProtocol.EachTimerOnce | ril/libril/ril_event.cpp:291-317 | over a run, added = waiting + pending + fired, each timer in one place; none is fired twice |
| WakeupProtocol.FiredOnlyWhenPast | ril/libril/ril_event.cpp:163-185 | every fired timer's deadline was strictly before the clock reading that expired it |
| WakeupProtocol.FiringServesTheSnapshot | ril/libril/ril_event.cpp:207-218 | while callbacks run and other threads add timers, fired plus pending stays the sequence present at the start; when nothing is pending, all of it is fired |
| WakeupProtocol.AddedTimerWaits | ril/libril/ril_event.cpp:296-312 | an added timer waits with clock plus relative time, behind the earlier deadlines and before the others |
| WakeupProtocol.SweepTakesTheExpired | ril/libril/ril_event.cpp:173-182 | exactly the timers whose deadline is strictly past become pending |
| WakeupProtocol.AlarmEndsTheSleep | ril/libril/ril.cpp:643-652 | with a byte in the pipe select can return, and reports the pipe |
| WakeupProtocol.PipeIsDrained | ril/libril/ril.cpp:664-674 | the wake-up callback ends with an empty pipe, and an adder never ends without a byte |
| WakeupProtocol.LoopGoesOn | ril/libril/ril_event.cpp:358-388 | outside select, and in a select that is over, the loop thread can always go on |
| EventLoopSteps.StartLoop | ril/libril/ril.cpp:784-808 | a new loop that watches the pipe shows an initial state |
| EventLoopSteps.AddTimer | ril/libril/ril_event.cpp:291-317 | ril_timer_add is one AdderAdd or LoopAdd step |
| EventLoopSteps.ProcessTimeouts | ril/libril/ril_event.cpp:163-185 | processTimeouts is one Sweep step |
| EventLoopSteps.TakePending | ril/libril/ril_event.cpp:212-214 | taking the first pending event is one FireNext step |
| EventLoopSteps.CalcNextTimeout | ril/libril/ril_event.cpp:220-243 | calcNextTimeout is a ReadHead and a ReadClock step |
| EventLoopSteps.AddEvent | ril/libril/ril_event.cpp:270-288 | ril_event_add is one AdderWatch or LoopWatch step |
| EventLoopSteps.DeleteEvent | ril/libril/ril_event.cpp:320-334 | ril_event_del is one Unwatch step for a watched event, and nothing otherwise |
| EventLoopCollect.ReadyOnce | ril/libril/ril_event.cpp:192-201 | the served slots hold each descriptor that is watched and ready exactly once |
| EventLoopCollect.ProcessReadReadies | ril/libril/ril_event.cpp:187-205 | processReadReadies is one CollectReady step |
| WakeLock.Globals.constructor | ril/libril/ril.cpp:242 | the globals show every initial state of their version |
| WakeLock.Globals.ReplaceLast | ril/libril/ril.cpp:2369-2381 | a new wake timer becomes the last one, and the previous one is cancelled |
| WakeLock.Globals.GrabPartialWakeLock | ril/libril/ril.cpp:2226-2250 | one Grab step, or below version 13 one Acquire step: the lock is held; from 13 on the count rises, and a new timer replaces the cancelled one |
| WakeLock.Globals.ScheduleTimeout | ril/libril/ril.cpp:2367-2382 | one Schedule step, below version 13 |
| WakeLock.Globals.ReleaseWakeLock | ril/libril/ril.cpp:2252-2274 | one Release step: the count falls by one, the last holder frees the lock and cancels the timer, and below version 13 every release frees it |
| WakeLock.Globals.WakeTimeoutCallback | ril/libril/ril.cpp:2279-2297 | one FireApply step: the lock is freed iff the flag that was read before is not set |
| WakeLock.Globals.ForgetInfo | ril/libril/ril.cpp:771-776 | one FireClear step: afterwards the freed info is not the last one |
| WakeLock.NextKeepsGuarded | ril/libril/ril.cpp:2226-2297 | every step keeps: only the last timer is armed, and a held lock has it or a thread about to arm one |
| WakeLock.HeldHasItsTimer | ril/libril/ril.cpp:2226-2297 | in every interleaving and version: one armed timer at most, the last one; a held lock has it; held iff count > 0; the last info is never freed memory |
| WakeLock.HoldIsBounded | ril/libril/ril.cpp:98-99 | a round whose clock reading is more than 200000 us after the latest grab ends with the lock released |
| WakeLock.ReleaseReleases | ril/libril/ril.cpp:2252-2274 | a release takes one from the count; the last one frees the lock and leaves no timer armed; below version 13 each one frees it |
| WakeLock.GrabHolds | ril/libril/ril.cpp:2226-2250 | a grab holds the lock, counts, and leaves exactly one timer armed, new and due 200000 us later |
| WakeLock.AcquireHolds | ril/libril/ril.cpp:2367-2382 | below version 13 the grab holds the lock, and the response arms exactly one timer, new and due 200000 us later |
| WakeLock.CallbackReleasesUnlessCancelled | ril/libril/ril.cpp:769-776 | a callback reads the flag of its own timer, frees the lock iff it is not set, and is then not the last one |
| WakeLock.ExactUnlessOvertaken | ril/libril/ril.cpp:2279-2297 | held, count > 0 and an armed last timer stay equivalent iff the step is not the callback of a timer overtaken by a grab |
| WakeLock.HeldIffCountIffTimer | ril/libril/ril.cpp:2226-2297 | in every run without overtaking, held iff count > 0 iff exactly one un-cancelled timer exists, the last one |
| WakeLock.OvertakenGrabIsLost | ril/libril/ril.cpp:757-776 | a run in which a grab between the read of the flag and the mutex loses its lock |
| Bytes.GetPut | ril/libril/ril.cpp:1313-1326 | a word written in either byte order is read back |
| Bytes.PutGet | ril/libril/ril.cpp:1313-1326 | no two byte strings are read as the same word |
| Bytes.ByteOrder | ril/libril/ril.cpp:1313-1326 | little-endian words have the low byte first, big-endian ones the high byte |
| MalFraming.FirstFrame | ril/libril/ril.cpp:1598-1623 | an accepted frame lies inside the stream and is longer than its header |
| MalFraming.BodyParsesIff | ril/libril/ril.cpp:1610-1622 | the server accepts exactly the bodies that carry a header of some length, two words and a payload, and takes the slot from the header's first word, or 0 |
| MalFraming.ParseEncodedBody | ril/libril/ril.cpp:1108-1117 | a body laid out as the comment says yields its sim id, request id, serial and payload |
| MalFraming.RequestLayout | ril/libril/ril.cpp:1108-1114 | where length, header size, sim id, request id, serial and payload are in a request frame |
| MalFraming.FramesParseBack | ril/libril/ril.cpp:1598-1623 | any concatenation of frames parses to its requests, up to the first that is too long |
| MalFraming.FramesRoundTrip | ril/libril/ril.cpp:1598-1623 | the round trip holds iff every payload has at most 65520 bytes |
| MalFraming.ClassifyIff | ril/libril/ril.cpp:1436-1466 | a request is a command exactly if its payload is laid out as a channel, a length and that many command bytes, and then with exactly these |
| MalFraming.AnswerFramesAppend | ril/libril/ril.cpp:1369-1399 | sending an answer appends its frame to those sent before |
| MalFraming.AnswerBodyParses | ril/libril/ril.cpp:1356-1387 | an answer body decodes to its sim id, serial, error and text |
| MalFraming.AnswerLayout | ril/libril/ril.cpp:1356-1387 | where length, flags, sim id, serial, error and text are in an answer frame, and the constants between them |
| MalFraming.AnswersRoundTrip | ril/libril/ril.cpp:1356-1387 | answer frames sent one after the other decode to the same answers |
| MalServer.Connection.Read | ril/libril/ril.cpp:1345-1350 | what a read may do: take any non-empty prefix, be interrupted, or meet the end of the stream |
| MalServer.MalReadAll | ril/libril/ril.cpp:1342-1354 | succeeds iff enough bytes arrive, and then delivers exactly them, however reads are split |
| MalServer.MalWriteAll | ril/libril/ril.cpp:1328-1340 | writes everything, or a prefix on a connection that broke |
| MalTable.Text | ril/libril/ril.cpp:1404-1413 | the answer text ends at the first NUL or at the given length, whichever is first |
| MalServer.FirstSuccessIsReturned | ril/libril/ril.cpp:1518-1567 | the answer is a success iff one of ten attempts succeeds after failures only, and it is that attempt's text |
| MalServer.OtherAnswers | ril/libril/ril.cpp:1436-1458 | a refused request gets GENERIC_FAILURE and no text, a first timeout GENERIC_FAILURE, and ten failures the tenth completion |
| MalServer.TimedOutText | ril/libril/ril.cpp:1557-1564 | the text of a timed-out answer is that of a late completion, else of the attempt before, else empty |
| MalServer.EveryCommandIsCalled | ril/libril/ril.cpp:1465-1466 | for every command of a connection, after the calls for earlier ones, the vendor gets the client's bytes and a NUL |
| MalServer.EveryCallIsForACommand | ril/libril/ril.cpp:1525-1530 | every call of the vendor is for a command of the connection, with its bytes, a NUL and its token |
| MalServer.TokensAreFresh | ril/libril/ril.cpp:1484 | every command has a token of its own |
| MalServer.Server.MalComplete | ril/libril/ril.cpp:1404-1432 | the completion is in its slot, and no other slot changes |
| MalServer.Server.MalClaim | ril/libril/ril.cpp:1303-1311 | the scan finds the lowest slot in use with the token, or none |
| MalServer.Server.OnRequestComplete | ril/libril/ril.cpp:1984-1993 | a completion of the token in a slot fills exactly that slot |
| MalServer.Server.MalSendFrame | ril/libril/ril.cpp:1369-1399 | the frame goes to the current client as a whole, or partly if its connection breaks |
| MalServer.Server.RetryLoop | ril/libril/ril.cpp:1516-1555 | the vendor is called with the same bytes and token for every attempt, ten times at most, until an attempt succeeds or times out |
| MalServer.LastAttemptIsFirstStop | ril/libril/ril.cpp:1546-1550 | the last attempt is the first one that succeeds, times out or is the tenth |
| MalServer.Server.Collect | ril/libril/ril.cpp:1557-1564 | the error and text that are answered, also after a late completion; the text is taken out of the slot |
| MalServer.Server.Execute | ril/libril/ril.cpp:1479-1576 | a command with a slot: its vendor calls, one answer frame, and the slot free again |
| MalServer.Server.FindSlot | ril/libril/ril.cpp:1468-1471 | the lowest free slot, or none iff all are in use |
| MalServer.Server.MalDispatch | ril/libril/ril.cpp:1434-1577 | exactly one answer frame, also for refused requests and a full table; for a command with a free slot the vendor is called at least once, each time with exactly the client's bytes and a NUL behind them and a fresh token, and for nothing else; the slot is given back |
| MalServer.Server.ReadFrame | ril/libril/ril.cpp:1598-1622 | the next request of the byte stream, or none when the stream or the frame ends the connection |
| MalServer.Server.ServeConnection | ril/libril/ril.cpp:1594-1629 | for every split of reads and writes, the requests of a one-pass parse are dispatched, the vendor is called for their commands in order, and each is answered once, in order, on its connection |
| MalServer.ClientSeesOneAnswerEach | ril/libril/ril.cpp:1356-1399 | the client decodes one answer per request, in order, with its sim id and serial |
| MalTable.Claim | ril/libril/ril.cpp:1303-1311 | the lowest slot in use with the token, or none |
| MalMachine.StepKeepsAllIffNotLate | ril/libril/ril.cpp:1984-1993 | a step keeps the whole invariant, and the slot to the running request, iff it is not the fill of another request |
| MalMachine.OwnedIffInTime | ril/libril/ril.cpp:1984-1993 | on a run, the slot's contents are always the running request's own iff no late fill occurs |
| MalMachine.VendorKeepsCurrent | ril/libril/ril.cpp:1404-1432 | every completion that is not a late fill keeps: the current attempt is outstanding, or its completion is in the slot |
| MalMachine.DispatchKeepsNoneFreed | ril/libril/ril.cpp:1569-1576 | every step of malDispatch keeps: no busy attempt has a freed token |
| MalMachine.AtMostOneOutstanding | ril/libril/ril.cpp:1518-1555 | without late fills, one outstanding attempt per token at most, ten attempts per request at most, no freed token among them |
| MalMachine.StaleCompletionIsIgnored | ril/libril/ril.cpp:1984-1993 | without late fills, a completion finds the slot iff its token is that of the running request, and then it is of the current attempt; so a timed-out token finds none later |
| MalMachine.CompletionIsNotLost | ril/libril/ril.cpp:1521-1544 | without late fills, a completion inside onRequest or during the wait that has filled the slot is there when the server looks; until then the attempt is still busy |
| MalMachine.AnswerIsTheLastAttempt | ril/libril/ril.cpp:1546-1566 | without late fills, earlier attempts failed; the answer is the last attempt's completion, a success or the tenth, or GENERIC_FAILURE after a timeout; its text is this request's own; and this is what is sent |
| MalMachine.TimesOutOnlyWithoutCompletion | ril/libril/ril.cpp:1536-1544 | without late fills, a wait times out iff the current attempt has not filled the slot |
| MalMachine.TokenIsGivenBack | ril/libril/ril.cpp:1571-1575 | without late fills, the token is freed iff the last attempt did not time out; only after a timeout may the vendor still complete it |
| MalMachine.EveryRequestIsAnswered | ril/libril/ril.cpp:1434-1577 | on every run, between frames every request has one answer on its connection, and the first slot is free: the table is never full |
| MalMachine.RequestIsTakenOrFailed | ril/libril/ril.cpp:1436-1482 | on every run, a refused request gets GENERIC_FAILURE at once, and any other one the first slot |
| MalMachine.CompletionFillsTheSlot | ril/libril/ril.cpp:1424-1431 | on every run, a completion that found the slot sets done, error and text, and nothing else |
| MalMachine.ServerGoesOn | ril/libril/ril.cpp:1518-1577 | on every run, the server thread is never stuck, and after 56 steps of its own at most it is back for the next frame |
| MalMachine.AtMostTenCalls | ril/libril/ril.cpp:1546-1550 | on every run, at most ten attempts of a token, outstanding and completed |
| MalMachine.LateFillAnswersTheNextRequest | ril/libril/ril.cpp:1984-1993 | a run in which a completion found its slot before a timeout and filled it afterwards answers the next request |
| ProxyWorkers.NextKeepsWorkerFits | ril/libril/ril.cpp:1198-1251 | every step keeps a worker's account: fired = completed, in hand, queued |
| ProxyWorkers.JobsRunInOrder | ril/libril/ril.cpp:1198-1251 | on every run, one worker per channel, jobs in timer-fired order, fired = completed + in hand + queued |
| ProxyWorkers.JobsAreDistinct | ril/libril/ril.cpp:1198-1251 | no job is fired, or run, twice |
| ProxyWorkers.RunsAlone | ril/libril/ril.cpp:1219-1221 | a running callback is alone on its channel |
| ProxyWorkers.NoWorkerSleepsOnAJob | ril/libril/ril.cpp:1210-1213 | a worker in the condition wait has an empty queue, although all share one condition |
| ProxyWorkers.FiringStartsAWorker | ril/libril/ril.cpp:1231-1249 | on every run, a fired job is last in its queue, all workers are awake, and its channel has a worker iff it had one or one could be created |
| ProxyWorkers.WorkerGoesOn | ril/libril/ril.cpp:1209-1223 | on every run, while a job of its channel is not completed, a worker is awake and can go on unless somebody else has the channel mutex; what it completes is the next job in order |
| ProxyWorkers.Queues.Append | ril/libril/ril.cpp:1232-1235 | the channel's list gains the job at its end; head and tail are null together and the tail stays the last reachable node |
| ProxyWorkers.Queues.ProxyTimerFired | ril/libril/ril.cpp:1228-1251 | one Fire step: the job is last in its channel's list, a worker is started iff the channel has none and pthread_create succeeds, and exactly then the flag is set |
| ProxyWorkers.Queues.TakeJob | ril/libril/ril.cpp:1210-1217 | one Take step with the oldest job, which leaves the list, or one Park step iff the list is empty |
| LockOrder.NextEffect | ril/libril/ril.cpp:1204-1249 | each operation acquires, gives up or keeps exactly the mutex it names |
| LockOrder.NextKeepsInv | ril/libril/ril.cpp:1163-1185 | who owns a mutex is always what the threads' places in the code say |
| LockOrder.InnerHolderNeverWaits | ril/libril/ril.cpp:1424-1431 | a holder of s_proxyQMutex, s_malDoneMutex or s_malMutex is never about to lock another |
| LockOrder.ChannelDiscipline | ril/libril/ril.cpp:1521-1544 | one channel mutex per thread at most, and nobody waits for a channel while holding anything |
| LockOrder.ChainsAreShort | ril/libril/ril.cpp:1389-1394 | a chain of waiting threads has at most two links |
| LockOrder.NoCircularWait | ril/libril/ril.cpp:1163-1185 | no reachable state has a circular wait of any length |
| LockOrder.VendorIsExclusive | ril/libril/ril.cpp:1171-1185 | per channel mutex at most one worker, request or MAL command is inside the vendor |
| LockOrder.OneAtATime | ril/libril/ril.cpp:1513-1530 | two threads that work on the same one of the 24 channels, MAL on six times its SIM, are never inside the vendor together |
| LockOrder.ChannelsAreIndependent | ril/libril/ril.cpp:1158-1170 | who waits for a channel mutex waits for somebody on the same channel |
| LockOrder.NoMutexIsKept | ril/libril/ril.cpp:1204-1251 | the owner of a mutex is always still inside the function that took it |
| LockOrder.SomeThreadGoesOn | ril/libril/ril.cpp:1163-1185 | a thread can go on, or waits for one that can, or for one that waits for one that can |
| PendingRequests.NextKeepsListed | ril/libril/ril.cpp:1910-1929 | every step keeps each list equal to its added requests minus the completed ones |
| PendingRequests.ListIsAddedMinusDone | ril/libril/ril.cpp:581-641 | on every run, each socket's list is added minus completed, newest first, without duplicates |
| PendingRequests.OnlyPendingTokensCount | ril/libril/ril.cpp:1878-1934 | acks never remove; NULL and stray tokens, those of malDispatch and completed ones change nothing |
| PendingRequests.PendingIsNeverClaimed | ril/libril/ril.cpp:1984-1998 | the completion of a pending request is never taken for one of malDispatch; it unlinks the request |
| PendingRequests.DistinctLists | ril/libril/ril.cpp:1892-1909 | every socket has a list of its own |
| PendingRequests.AddedIsFirst | ril/libril/ril.cpp:581-641 | a new request is pending, unacked and first of its socket's list; the other lists stay |
| PendingRequests.MarkedByAnAck | ril/libril/ril.cpp:1918-1923 | on every run, a request gets its mark exactly by an ack that finds it pending, and keeps it |
| PendingRequests.AckDecidesTheAnswer | ril/libril/ril.cpp:2180-2187 | on every run, an acked request is answered with an expected ack under one wake lock from version 13 on, whatever happens in between |
| PendingRequests.NoAckNoWakeLock | ril/libril/ril.cpp:2185-2187 | on every run, a request without an ack is answered plainly and without a wake lock |
| PendingRequests.CompletionUnlinksOne | ril/libril/ril.cpp:1924-1926 | on every run, a completion takes its own request off its list and no other |
| PendingRequests.RespondedOnce | ril/libril/ril.cpp:1972-2224 | one response per request at most, none for local ones, ACK_EXP with one wake lock iff acked and version >= 13; every completed request gets its answer, if its command has a response function |
| PendingRequests.Lists.AddRequestToList | ril/libril/ril.cpp:581-641 | one Add step: the new node, without an ack, is the head of its socket's list |
| PendingRequests.Lists.Search | ril/libril/ril.cpp:1912-1916 | the walk finds the request iff it is linked, with the link that leads to it |
| PendingRequests.Lists.Unlink | ril/libril/ril.cpp:1924-1926 | the list without that node, and all other lists unchanged |
| PendingRequests.Lists.CheckAndDequeueRequestInfoIfAck | ril/libril/ril.cpp:1878-1934 | one Ack or Dequeue step for any token: an ack of a linked request marks it and leaves the lists, a completion unlinks it; returns whether it was linked |
| PendingRequests.Lists.MalClaim | ril/libril/ril.cpp:1303-1311 | the scan finds the slot that the token claims in the table that is shown, or none |
| PendingRequests.Lists.OnRequestComplete | ril/libril/ril.cpp:1984-1998 | one Dequeue step; a claimed token touches no list |
| PendingRequests.Lists.FinishRequest | ril/libril/ril.cpp:2008-2224 | one Respond step: a wake lock and an expected ack iff the request is not local, was acked and the version is at least 13 |
| ResponseGenerations.OnlyTheFailedGenerationIsCleared | ril/libril/ril_service.cpp:805-847 | callbacks are dropped only by a thread whose failed call used that very installation |
| ResponseGenerations.CompareClearsIffUnchanged | ril/libril/ril_service.cpp:824-837 | both callbacks are dropped and the counter rises iff it is the noted one; otherwise nothing changes; the other service never does |
| ResponseGenerations.DropsIffNothingHappened | ril/libril/ril_service.cpp:812-837 | over any interleaving between the read of the counter and the comparison, the callbacks are dropped iff the service is still what it was |
| ResponseGenerations.InstallReplacesBoth | ril/libril/ril_service.cpp:862-864 | an installation replaces both callbacks by what was given, also null, and leaves the other service alone |
| ResponseGenerations.HolderGoesOn | ril/libril/ril_service.cpp:816-845 | a thread that holds the lock can go on, and if nobody does, everybody can |
| ResponseGenerations.CounterCountsChanges | ril/libril/ril_service.cpp:853-868 | the counter is the number of installations and clearings; callbacks are from the latest installation |
| ResponseGenerations.ReadersSeeNoChange | ril/libril/ril_service.cpp:811-822 | under the read lock both services stay as they are |
| ResponseGenerations.ServiceFields.constructor | ril/libril/ril_service.cpp:107-108 | a new service shows every initial state |
| ResponseGenerations.ServiceFields.ClearIfUnchanged | ril/libril/ril_service.cpp:824-837 | one Compare step: both fields become null and the counter rises, or all three stay |
| ResponseGenerations.ServiceFields.SetResponseFunctions | ril/libril/ril_service.cpp:853-868 | one Install step: both fields are what was given, and the counter rises |
| FcpTranslator.HexDigit | ril/libril/ril_service.cpp:4445-4447 | an output digit is read back as its value |
| FcpTranslator.DigitsAre | ril/libril/ril_service.cpp:4354-4359 | which characters are digits and what they stand for; the output has capitals |
| FcpTranslator.DecodeEncode | ril/libril/ril_service.cpp:4377-4382 | decoding the hexadecimal text of bytes gives the bytes |
| FcpTranslator.DecodeAt | ril/libril/ril_service.cpp:4377-4382 | each byte is read from two digits, the high one first |
| FcpTranslator.EncodeSpells | ril/libril/ril_service.cpp:4445-4447 | each byte is written as two digits, the high one first |
| FcpTranslator.ObjectsOfEncoded | ril/libril/ril_service.cpp:4395-4424 | the objects of an encoded list are that list, and an object cut short at the end does not count |
| FcpTranslator.LastIsLast | ril/libril/ril_service.cpp:4400-4422 | of several usable objects the last one counts |
| FcpTranslator.DecodeInto | ril/libril/ril_service.cpp:4376-4382 | the buffer holds the decoded bytes, or a character was no digit |
| FcpTranslator.Visit | ril/libril/ril_service.cpp:4400-4422 | the locals keep describing the last usable objects seen |
| FcpTranslator.Scan | ril/libril/ril_service.cpp:4395-4424 | the loop terminates inside its bounds with the last usable objects, up to the first truncated one |
| FcpTranslator.FcpToLegacy | ril/libril/ril_service.cpp:4361-4451 | for every input and gate the code computes the recursive specification |
| FcpTranslator.TranslatedIff | ril/libril/ril_service.cpp:4372-4429 | exactly which texts are translated, and which are passed through |
| FcpTranslator.TemplateIsTranslated | ril/libril/ril_service.cpp:4361-4451 | any template whose objects describe a file is translated, in any order and digit case, whatever follows its body and also when its end is missing |
| FcpTranslator.TemplateRoundTrip | ril/libril/ril_service.cpp:4426-4447 | the 30 digits spell 15 bytes with the fixed ones in place; they give the identifier, the structure code, the size modulo 65536 and the record length modulo 256 |
| FcpTranslator.PlainTemplateRoundTrip | ril/libril/ril_service.cpp:4400-4441 | the same in terms of the tags 80, 83 and 82 |
| ThreadTable.AddThreadPid | ril/libril/ril.cpp:418-440 | the array becomes the old one with the thread moved to the front, for any size |
| ThreadTable.CallStep | ril/libril/ril.cpp:418-440 | one call turns the first entries of a list of distinct threads into those of the updated list |
| ThreadTable.TableHoldsTheMostRecent | ril/libril/ril.cpp:418-440 | after any calls the table is the N most recent distinct threads, most recent first, latest channel each, empty slots last |
| SapQueue.UnlinksItsOwnIffNotShadowed | ril/libril/rilSocketQueue.h:137-156 | a completion unlinks its own node, the others in order, iff no newer outstanding request has its message id and token |
| SapQueue.QueueIsDispatchedMinusCompleted | ril/libril/RilSapSocket.cpp:211-279 | on every run with distinct outstanding keys the queue is dispatched minus completed, newest first |
| SapQueue.EqualKeysUnlinkTheWrongNode | ril/libril/rilSocketQueue.h:143-150 | a run with equal keys that leaves the completed request linked |
| SapQueue.Queue.Enqueue | ril/libril/rilSocketQueue.h:121-133 | one Dispatch step: the request is the new front |
| SapQueue.Queue.Dequeue | ril/libril/rilSocketQueue.h:102-118 | the front node, and the list without it; null, and nothing changes, iff the queue is empty, on which the caller waits |
| SapQueue.Queue.Search | ril/libril/rilSocketQueue.h:143-144 | the walk stops at the first node with the message id and token |
| SapQueue.Queue.CheckAndDequeue | ril/libril/rilSocketQueue.h:137-156 | one Complete step: the first match is unlinked by rewriting the link that leads to it |

## Left out

- The vendor libraries and what is behind them: mtk-ril's onRequest, and librilmtk's enqueue and RIL_queryMy functions. onRequest is an environment step.
- my_enqueue calls onRequest without the channel mutex (ril/libril/ril.cpp:1057), whatever the comment at ril/libril/ril.cpp:1141-1143 says, so exclusion is stated only for callers of mtkChannelLock.
- The RIL_CHANNEL_QUEUING and RIL_UNSOL_PENDING code, which is off unless a board sets a flag.
- The lookup of pCI for vendor requests, and MAL's mapping of sim ids to sockets.
- RIL_myProxyIdByThread: it reads the thread table only for a debug message.
- HIDL wrappers, struct copies, string tables, property and file access, socket binding and logging.
- Response functions called through sendErrorResponse, which run without the read lock.
- Real time: usleep, the 20 s wait and select's timeout are steps that may or may not happen; FD_SETSIZE and clock overflow are not modelled.
- Malloc failures and the branches that handle them, and reads of freed memory after a second completion of a token.
- EventLoop.Loop.FirePending: a callback in the model adds events of its own making, and watches only descriptors that are not watched yet.
- EventLoop.Loop.RunCallback: the wake-up callback's drain of the pipe is in WakeupProtocol only.
- EventLoop.Loop.ProcessReadReadies: requires watched events to be linked in neither list, as they are when nothing is pending.
- MalServer.Server.ServeConnection: models one connection; accept and the reconnection of the client are steps of MalMachine.
- MalServer.Server.MalDispatch: leaves out the socket id that onRequest is given; the channel word of a command is only logged.
- MalServer.Server.RetryLoop: takes the outcome of each attempt from the vendor's behaviour; the interleaving that leads to it is in MalMachine.
- ProxyWorkers.Queues.ProxyTimerFired: the mutex and the broadcast are in the step system, not in the class.
- FcpTranslator.FcpToLegacy: takes the property persist.vendor.ril.fcp as a parameter.
