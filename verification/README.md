# RTEMS 3.6: a verified model of its hardest corners

A Dafny model of parts of the RTEMS 3.6 executive and its build tools, with proofs about
whole runs: the event manager's race protocol, the watchdog delta chain, the termios line
discipline, POSIX signal delivery, the sporadic server, timed-wait arithmetic, the
monitor's symbol search, and the hex record tools. `dafny verify dfyconfig.toml` checks
everything.

Where the original changes state step by step, the model has a class or a method with the
same steps, proved against a function on values; the theorems are about those functions
and about runs of them. Nothing was executed: the results are proofs about the model.

## How the files are arranged

| part | files |
|---|---|
| event manager | `EventManager` (state machine), `EventInvariant`, `EventTheorems`, `EventTimeouts`, `EventExamples`, `EventSections` (the routines as assignments) |
| watchdog | `Watchdog` (delta chain), `WatchdogInsert` (insertion under interrupts), `WatchdogHandler` (the routines) |
| termios | `OutputRing`, `InputRing`, `LineDiscipline`, `TerminalDriver` (the routines), `CanonicalInput`, `Display`, `EditDisplay`, `WriteDisplay` |
| signals | `Signals`, `SignalDelivery`, `SiginfoPool`, `SignalTarget` |
| scheduling and time | `SporadicServer`, `Timespec` |
| shared | `Basics` |
| monitor | `Symbols` |
| hex tools | `HexText`, `HexRecords`, `Packhex`, `PackhexFiles`, `PackhexMain`, `Unhex`, `UnhexFiles`, `HexTools`, `HexPipeline`, `HexImage` |

The event manager is a state machine over atomic sections, split where the code enables
interrupts. The operations in progress form a stack, because an interrupt runs to its end
before what it interrupted goes on; any number of threads exist and one executes.

## What turned out to be false, and what holds instead

Each of these has a lemma with a concrete input or a whole failing family, and the exact
condition under which the code does what it should.

- *SYNCHRONIZED means nobody sleeps on a satisfied condition* fails between
  `event.c:217` and `event.c:244` (`SynchronizedButUnserved`); the only exception is a thread
  that `_Event_Seize` is about to ready (`SynchronizedWakeup`).
- *A receive recorded as SATISFIED succeeds whatever timeouts follow* fails when a send
  comes between the test and the assignment of `_Event_Timeout`
  (`PreemptedTimeoutOverrules`); `SatisfiedVerdict` states exactly when.
- *A receive that times out consumed nothing* fails (`TimeoutAfterConsumption`; the comment
  at `event.c:368-369` promises it); `TimeoutConsumedIffCrossed` states exactly when, and
  `HistoryMoves` which sections bring it about.
- packhex does not flush at the end of its input: its output means what its input does
  exactly when the input does not end in data (`PackFilePreservesMeaning`).
- packhex prints records that unhex cannot read, because unhex reads lines of at most 511
  characters and takes the S3 address of all ones for an error (`PrintedRecordReadable`).
  So packing can turn a file that unhex accepts into one that it rejects
  (`AdjacentRecordsRejected`), and drop data that it accepts; `UnhexAfterPackhex` states
  exactly when each happens.
- An end record ends an Intel file only: unhex checks an S7, S8 or S9 record and goes on
  after it (`EndRecordPassedOver`). `UnhexFileStoresImage` states which files are accepted
  and what they store.
- An empty data record can keep packhex from splicing what adjoins (`EmptyRecordBreaks`);
  `PackedIff` states exactly when.
- An ignored siginfo signal with several queued values can stay pending after the delivery
  loop; `PostSwitchExtension` states exactly when.
- `killinfo` sets the pending bit before it reports EAGAIN, and returns with dispatching
  disabled (`RefusedYetPending`, `ValuelessIff`, `PoolIntegrity`);
  `sigaction` breaks the agreement of chains and pending bits unless the chain is empty and
  something is pending (`SigactionKeepsPendingIff`).
- `killinfo` looks only at the first waiting thread of each priority (`HiddenWaiter`);
  `Choose` states exactly when it misses somebody.
- A sporadic server's bound does not hold for a thread that is not preemptible
  (`NonPreemptibleUncharged`), nor if its budget runs out under a mutex: while it holds the
  mutex it goes on at high priority (`HolderRunsOn`), and even after it if the mutex has
  neither inheritance nor ceiling (`PlainMutexKeepsHigh`). `ServerBound` accounts for all
  three, and `OverdrawnIff` and `AdriftIff` state exactly when the last two happen.
- A server whose period is no longer than its budget stays at high priority, unless both
  are a single tick, which the clock charges as soon as it is granted (`FullBudget`).
- The symbol search misreads the slot after the table, and misses a symbol at distance
  2^32 - 1 (`Search` states both exactly).
- A wait of 4295 seconds or more is cut short by 32-bit arithmetic (`TimedWait`,
  `LongWaitCutShort`); `_POSIX_Timespec_subtract` is right to the nanosecond, but its second
  branch leaves the fields denormalised for differences below two seconds (`Subtract`).
- A watchdog inserted with a zero interval delays all the others by 2^32 ticks
  (`ZeroIntervalWraps`, `SettledIff`), and a clock set forward no longer does what ticks do
  (`ForwardIsTicksIff`).
- Watchdogs of one deadline fire in the order of insertion only as long as there are at
  most two (`NotFirstInFirstOut`, `FirstInFirstOutIff`).
- A watchdog cancelled while it is being inserted can end up on the chain all the same
  (`CancelLost`); `CancelLostIff` states exactly when.

## Model

| member | source | states |
|---|---|---|
| EventInvariant.ReachableInv | c/src/exec/rtems/src/event.c:155-383 | an inductive invariant of every interleaving of receives, sends, timeouts and dispatches over any number of threads |
| EventTheorems.NoLostWakeup | c/src/exec/rtems/src/event.c:155-330 | in every reachable state, a waiting thread with no seize of its own and no send past its post in progress has pending events that do not meet its condition |
| EventTheorems.SynchronizedWakeup | c/src/exec/rtems/src/event.c:194-246 | with SYNCHRONIZED alone the only exception is a thread that the running seize is about to ready |
| EventTheorems.ReceiveCorrect | c/src/exec/rtems/src/event.c:110-247 | a successful receive returns a non-empty subset of the request, all of it under EVENT_ALL; a timed-out one had a time limit and was to wait; an unsatisfied one was not to wait and found, and left pending, too little; no timer is left running |
| EventTheorems.ReceiveDecides | c/src/exec/rtems/src/event.c:155-212 | a receive is answered on the spot exactly when its condition is met, and otherwise refused under NO_WAIT, with what it found, or blocked |
| EventTheorems.ResolveNeverSynchronized | c/src/exec/rtems/src/event.c:217-246 | the SYNCHRONIZED case at the end of `_Event_Seize` cannot be reached |
| EventTheorems.EventsConserved | c/src/exec/rtems/src/event.c:60-330 | over every run, per thread and event bit: posts equal seizures plus one if pending, and seizures equal what was delivered, is held or was overwritten |
| EventTheorems.PendingMoves | c/src/exec/rtems/src/event.c:60-330 | for every action: a send adds exactly its events to the pending set and records those that were not pending; what leaves a pending set is all of it that its thread asked for, recorded as seized |
| EventTheorems.SendServesIff | c/src/exec/rtems/src/event.c:266-330 | a send takes what its thread waits for exactly when that meets the condition and the thread sleeps, or is in its window and not served yet, even after a timeout was recorded |
| EventTheorems.OverwrittenOnlyBySecondSend | c/src/exec/rtems/src/event.c:284-327 | only a second satisfying send, before the receiver leaves, overwrites an output variable |
| EventTheorems.SyncDiscipline | c/src/exec/rtems/src/event.c:194-246 | at most one window is open, the executing thread's; who may move the sync state and where to |
| EventTheorems.SatisfiedVerdict | c/src/exec/rtems/src/event.c:217-379 | in every run, a receive for which SATISFIED was recorded returns a timeout exactly when the assignment of an `_Event_Timeout` overruled the last such record, and successfully otherwise |
| EventTheorems.TimeoutConsumedIffCrossed | c/src/exec/rtems/src/event.c:217-379 | in every run, a receive returns a timeout with events in its output variable exactly when a consumption and a timeout crossed |
| EventTheorems.HistoryMoves | c/src/exec/rtems/src/event.c:284-379 | which sections, and in which states, make a timeout overrule SATISFIED or cross a consumption, and what undoes it |
| EventTheorems.OverruledExactly | c/src/exec/rtems/src/event.c:372-375 | before the window closes, SATISFIED gives way only to the assignment of a timeout that tested before |
| EventTimeouts.NoLostTimeout | c/src/exec/rtems/src/event.c:155-383 | in every reachable state, a thread asleep outside its own seize on a receive with a time limit has its timer running, or a timeout or a send that ends its receive is in progress |
| EventTimeouts.DecidedIsReadied | c/src/exec/rtems/src/event.c:284-383 | a thread asleep outside its own seize whose receive has its events or is timed out has an operation in progress that readies it |
| EventTimeouts.SleepersAtRest | c/src/exec/rtems/src/event.c:155-383 | with no operation in progress, a thread sleeps only on an undecided receive, for a condition that is not met, and its timer runs exactly if it has a time limit |
| EventTimeouts.ExpiryWakes | c/src/exec/rtems/src/event.c:345-383 | from every reachable state, the expiry of a sleeping thread's timer readies it with a timeout, whatever else is in progress |
| EventTimeouts.OperationsEnd | c/src/exec/rtems/src/event.c:155-383 | left to themselves, the operations in progress end within six sections each |
| EventExamples.SynchronizedButUnserved | c/src/exec/rtems/src/event.c:217-244 | a reachable state with SYNCHRONIZED and a sleeping thread whose condition is met |
| EventExamples.TimeoutAfterConsumption | c/src/exec/rtems/src/event.c:284-304 | a run in which a receive times out although its events were consumed |
| EventExamples.PreemptedTimeoutOverrules | c/src/exec/rtems/src/event.c:372-375 | a run in which SATISFIED is recorded and the receive times out |
| EventSections.Manager.RunTop | c/src/exec/rtems/src/event.c:155-383 | running the topmost operation's next section in place changes the state as the state machine does |
| EventSections.Manager.ReceiveCurrent | c/src/exec/rtems/src/event.c:121-124 | a receive of the empty set reports exactly the events posted and not yet seized, in every reachable state |
| EventSections.Manager.Post | c/src/exec/rtems/src/event.c:60-90 | the post of a send, on the thread table |
| EventSections.Manager.SeizeTry | c/src/exec/rtems/src/event.c:155-212 | the test section of `_Event_Seize`: takes the events, gives up, or opens the window |
| EventSections.Manager.SeizeFinish | c/src/exec/rtems/src/event.c:212-247 | the section that settles the window |
| EventSections.Manager.Surrender | c/src/exec/rtems/src/event.c:266-330 | the test section of `_Event_Surrender` in its four cases |
| EventSections.Manager.CheckTimeout | c/src/exec/rtems/src/event.c:345-383 | the test section of `_Event_Timeout`, in the window and for a sleeping thread |
| Watchdog.InsertedTimers | c/src/exec/score/src/watchdog.c:145-213 | an insertion adds one deadline and moves none |
| Watchdog.PlaceInDeadlines | c/src/exec/score/src/watchdog.c:166-205 | where it goes: timers before it are due no later, those after it no earlier, and only the one just before it can be due at the same time |
| Watchdog.FirstInFirstOutIff | c/src/exec/score/src/watchdog.c:166-178 | a new timer goes behind all those of its own deadline exactly when at most one has it already |
| Watchdog.RemovedTimers | c/src/exec/score/src/watchdog.c:49-91 | a removal drops one deadline and moves none |
| Watchdog.TickTimers | c/src/exec/score/src/watchdog.c:228-273 | a tick fires exactly the timers whose deadline it is, once and in chain order, and moves no other deadline, with routines that insert any timers |
| Watchdog.ForwardIsTicks | c/src/exec/score/src/watchdog.c:108-135 | on a settled chain, setting the clock forward by n does to the chain, and fires in the order, what n ticks do |
| Watchdog.ForwardIsTicksIff | c/src/exec/score/src/watchdog.c:108-135 | for every adjustment that 32 bits can ask for this is so exactly when the chain is settled |
| Watchdog.ZeroIntervalWraps | c/src/exec/score/src/watchdog.c:228-243 | a zero interval on any chain: the next tick fires nothing and puts every deadline 2^32 ticks later |
| Watchdog.SettledIff | c/src/exec/score/src/watchdog.c:145-213 | an insertion leaves a chain that ticks can count down exactly when its interval is not zero |
| Watchdog.NotFirstInFirstOut | c/src/exec/score/src/watchdog.c:166-178 | of three timers of one deadline the third goes between the first two |
| WatchdogInsert.InsertionCorrect | c/src/exec/score/src/watchdog.c:145-213 | however ticks, removals, insertions and a cancellation interrupt the walk, nothing but its one deadline is added, a full interval after the start of the walk that placed it; an aborted insertion leaves what the interrupts leave |
| WatchdogInsert.CancelLostIff | c/src/exec/score/src/watchdog.c:157-203 | a cancelled insertion is done all the same exactly when the walk starts with it cancelled and ends at its first node |
| WatchdogInsert.CancelledWalkAborts | c/src/exec/score/src/watchdog.c:188-194 | a cancellation once the walk is under way always holds: no run from there adds the timer |
| WatchdogInsert.CancelLost | c/src/exec/score/src/watchdog.c:157-203 | an insertion into an empty chain, cancelled just before its walk starts, still adds the timer |
| WatchdogInsert.AbortedOnlyIfCancelled | c/src/exec/score/src/watchdog.c:188-203 | in every run an insertion is aborted only if it was cancelled, and cancelled only by a cancellation |
| WatchdogInsert.InsertionCompletes | c/src/exec/score/src/watchdog.c:157-213 | from every state an insertion that is not cancelled and is left alone is done after a round for each node and three more |
| WatchdogInsert.NextKeeps | c/src/exec/score/src/watchdog.c:160-213 | the invariant of the walk: the ticks to go count from the deadline of the last node passed |
| WatchdogHandler.Handler.Insert | c/src/exec/score/src/watchdog.c:145-213 | the walk along the chain in place computes the specified insertion |
| WatchdogHandler.Handler.Remove | c/src/exec/score/src/watchdog.c:49-91 | the removal in place |
| WatchdogHandler.Handler.Tickle | c/src/exec/score/src/watchdog.c:228-273 | the tick in place, with the routines it calls |
| WatchdogHandler.Handler.FireLoop | c/src/exec/score/src/watchdog.c:246-272 | the loop over the due timers terminates and calls exactly those |
| WatchdogHandler.Handler.AdjustForward | c/src/exec/score/src/watchdog.c:119-132 | the loop that jumps from expiration to expiration computes the specified adjustment on every chain, and does what as many ticks do on a settled one |
| WatchdogHandler.Handler.AdjustBackward | c/src/exec/score/src/watchdog.c:116-118 | every timer is delayed alike, unless 32 bits overflow, and then every timer is 2^32 ticks earlier than that |
| OutputRing.OutputIntegrity | c/src/lib/libc/termios.c:427-474 | for every interleaving of writes, drains and transmit interrupts, the bytes on the wire are a prefix of the bytes given to `osend`; idle holds exactly when the ring is empty, and then everything was sent |
| OutputRing.FlightHoldsUnsent | c/src/lib/libc/termios.c:900-933 | a run handed to the device is contiguous and holds the next unsent bytes |
| OutputRing.FlightUntouched | c/src/lib/libc/termios.c:427-474 | nothing but the device's interrupt changes the run in flight or the bytes in it |
| OutputRing.FlightIsLongest | c/src/lib/libc/termios.c:919-929 | the interrupt hands over all that is contiguous: to the end of the ring or to the last byte placed |
| OutputRing.WriterWillWake | c/src/lib/libc/termios.c:454-463 | a thread waiting for room has a token or a transmission whose interrupt releases one |
| OutputRing.DrainReturnsIff | c/src/lib/libc/termios.c:305-324 | in every run a drain returns exactly when the device is quiet, and then every byte given to `osend` is on the wire |
| OutputRing.PutRefused | c/src/lib/libc/termios.c:452-454 | a byte is refused exactly when all slots but one hold unsent bytes |
| OutputRing.PutKeepsUnsent | c/src/lib/libc/termios.c:464-465 | the slot written holds no unsent byte |
| OutputRing.Driver.Put | c/src/lib/libc/termios.c:438-472 | the section of `osend` for one byte, in place |
| OutputRing.Driver.Drain | c/src/lib/libc/termios.c:305-324 | the section of `drainOutput` |
| OutputRing.Driver.DequeueCharacters | c/src/lib/libc/termios.c:900-933 | the transmit interrupt: the new tail and state, what is handed over, whom it releases |
| InputRing.InputIntegrity | c/src/lib/libc/termios.c:799-889 | under every access-level interleaving of interrupt and reader, characters are taken once and in order, those queued are a prefix of each burst received, at most 127 are held, and every character received is queued or counted as dropped |
| InputRing.DropsIff | c/src/lib/libc/termios.c:876-881 | the interrupt drops the rest of a burst exactly when 127 characters are held |
| InputRing.ConsumerTakes | c/src/lib/libc/termios.c:803-809 | a character that is queued is taken by the next three accesses of the reader |
| InputRing.ProducerQueues | c/src/lib/libc/termios.c:882-884 | a character that there is room for is queued by the next two accesses of the interrupt |
| InputRing.Driver.EnqueueRaw | c/src/lib/libc/termios.c:871-889 | queues what fits in order, returns and counts the rest, and leaves some out only when the ring is full |
| InputRing.Driver.TakeCharacter | c/src/lib/libc/termios.c:803-809 | takes the oldest character |
| TerminalDriver.Driver.Oproc | c/src/lib/libc/termios.c:479-531 | output processing in place: what is sent and the new column |
| TerminalDriver.Driver.Write | c/src/lib/libc/termios.c:533-556 | a write processes its bytes in order |
| TerminalDriver.Driver.EchoChar | c/src/lib/libc/termios.c:561-575 | the echo of a character |
| TerminalDriver.Driver.EraseChars | c/src/lib/libc/termios.c:582-652 | erase and kill in place: the loop over the line, the column search before a tab, the rub-outs |
| TerminalDriver.Driver.EraseLastChar | c/src/lib/libc/termios.c:600-648 | one round of the erase loop |
| TerminalDriver.Driver.FindColumn | c/src/lib/libc/termios.c:608-626 | the loop that lays out the line computes its column |
| TerminalDriver.Driver.Iproc | c/src/lib/libc/termios.c:657-709 | input processing of one character on the line buffer |
| TerminalDriver.Driver.MapCharacter | c/src/lib/libc/termios.c:659-675 | the input mapping |
| TerminalDriver.Driver.AcceptCharacter | c/src/lib/libc/termios.c:677-709 | erase, kill, end of file, line ends and ordinary characters |
| TerminalDriver.Driver.FillBuffer | c/src/lib/libc/termios.c:793-832 | the canonical loop consumes characters until the line is complete |
| TerminalDriver.Driver.Read | c/src/lib/libc/termios.c:834-863 | a read fills the line buffer if it is empty and copies out of it |
| CanonicalInput.TypeFollowsFold | c/src/lib/libc/termios.c:657-709 | each typed character edits the line as a pure fold says, whatever the echo flags |
| CanonicalInput.FillFollowsFold | c/src/lib/libc/termios.c:793-832 | the fill loop computes the fold's next line |
| CanonicalInput.ReadsFollowFold | c/src/lib/libc/termios.c:834-863 | for every input and every split into reads, the bytes returned followed by what is still readable are what the fold delivers |
| CanonicalInput.ReadSize | c/src/lib/libc/termios.c:834-863 | a read waits exactly while no line is complete; otherwise it returns the start of the unread part of the line, as much as was asked for or is there, and leaves the rest of it to the next read |
| CanonicalInput.ReadsReturnAll | c/src/lib/libc/termios.c:834-863 | enough reads of any positive sizes return all that the fold delivers |
| CanonicalInput.InputFlagsMean | c/src/lib/libc/termios.c:659-675 | what ISTRIP, IUCLC, IGNCR, ICRNL and INLCR do to every character, both ways |
| CanonicalInput.ReturnDelivers | c/src/lib/libc/termios.c:657-709 | under ICRNL, text and the return key deliver the text, up to 255 characters, and a newline |
| CanonicalInput.LineBounded | c/src/lib/libc/termios.c:703-707 | a line being edited has at most 255 characters, a delivered one at most 256 |
| CanonicalInput.FillInBursts | c/src/lib/libc/termios.c:793-832 | how the input arrives in bursts does not matter |
| Display.CursorTracked | c/src/lib/libc/termios.c:479-652 | with OPOST, for all other flags and every run of writes, typing and reads, the driver's column is that of a terminal fed every byte sent |
| Display.ProcessTracks | c/src/lib/libc/termios.c:479-531 | output processing keeps the column in step |
| Display.EraseTracks | c/src/lib/libc/termios.c:582-652 | so does erasing |
| EditDisplay.DisplayShowsLine | c/src/lib/libc/termios.c:582-709 | until the line is complete, the column is that of the line laid out from the start column, and the display is the one that typing just the line gives |
| EditDisplay.ReadShowsLine | c/src/lib/libc/termios.c:582-846 | from the start of a read at any column, after anything that was sent before, the terminal shows the line being edited from that column on |
| EditDisplay.EraseUndoesTyping | c/src/lib/libc/termios.c:582-652 | typing and erasing a character restores line, column and display |
| EditDisplay.KillRestoresStart | c/src/lib/libc/termios.c:582-652 | kill restores the start column and the display at the start of the read |
| WriteDisplay.WriteSends | c/src/lib/libc/termios.c:479-556 | with OPOST, a write sends the translation of its data by the output flags for the terminal as it stands |
| WriteDisplay.WriteReadsBack | c/src/lib/libc/termios.c:479-556 | the bytes a write sends, without the returns that ONLCR puts before newlines, are its data (in upper case under OLCUC), for all data that no flag makes ambiguous |
| WriteDisplay.WriteShows | c/src/lib/libc/termios.c:479-556 | after a write the terminal shows, cell by cell and with its cursor, what one would that was given the data and obeyed the flags itself |
| WriteDisplay.WriteRows | c/src/lib/libc/termios.c:486-494 | every newline of the data takes the terminal one row down |
| WriteDisplay.RawWrite | c/src/lib/libc/termios.c:549-552 | without OPOST the bytes sent grow by exactly the data, and nothing else changes |
| WriteDisplay.KeyShows | c/src/lib/libc/termios.c:561-709 | what each key sends to the terminal, for all flags and control characters, but for erasures under ECHOE |
| WriteDisplay.UncontrolFlips | c/src/lib/libc/termios.c:561-571 | the letter after the caret is the control character with bit 6 flipped |
| SignalDelivery.PostSwitchExtension | c/src/exec/posix/src/psignal.c:345-395 | the restarting loop terminates, calls exactly the handlers due when it began, in order and each under its mask, restores the mask, and leaves no unblocked signal pending exactly when no ignored signal has more values queued than passes reach it |
| SignalDelivery.Pass | c/src/exec/posix/src/psignal.c:372-393 | the two scans of one pass |
| SignalDelivery.PassDelivers | c/src/exec/posix/src/psignal.c:288-393 | a pass delivers the first delivery due and nothing else, or none is due |
| SignalDelivery.PassClearsIff | c/src/exec/posix/src/psignal.c:293-317 | the last pass leaves nothing pending exactly when no ignored signal has several values queued |
| SignalDelivery.PassStuck | c/src/exec/posix/src/psignal.c:345-395 | a pass that calls a handler takes one value off exactly the ignored signals before the one delivered |
| SignalDelivery.ExpectedSorted | c/src/exec/posix/src/psignal.c:372-393 | handlers run real-time signals first, then the others, each by number |
| SignalDelivery.FirstIsHighest | c/src/exec/posix/src/psignal.c:789-808 | the first handler is for the signal that `_POSIX_signals_Get_highest` prefers |
| Signals.GetHighest | c/src/exec/posix/src/psignal.c:789-808 | finds the first signal in delivery order, or zero exactly for the empty set |
| Signals.Manager.constructor | c/src/exec/posix/src/psignal.c:419-486 | the state after initialization: an empty pending set, empty chains, all nodes inactive |
| Signals.Manager.SetProcessSignals | c/src/exec/posix/src/psignal.c:184-195 | posts a signal and counts the first |
| Signals.Manager.ClearProcessSignals | c/src/exec/posix/src/psignal.c:202-213 | clears a signal and counts the last |
| Signals.Manager.PostProcessSignal | c/src/exec/posix/src/psignal.c:1176-1206 | the end of `killinfo`, with its EAGAIN case, which leaves dispatching disabled |
| Signals.Manager.ClearSignals | c/src/exec/posix/src/psignal.c:220-285 | takes a signal from the process or the thread, with the oldest value of its chain |
| Signals.Manager.CheckSignal | c/src/exec/posix/src/psignal.c:293-343 | clears a signal, records the call of its handler with the widened mask in force, and restores the mask |
| SiginfoPool.PoolIntegrity | c/src/exec/posix/src/psignal.c:250-276 | in every run each node is inactive or in one chain, values leave a chain in order, a chain with values has its pending bit, the request for the extension stands exactly while something is pending, and every refused call leaves dispatching disabled once more |
| SiginfoPool.NextPreserves | c/src/exec/posix/src/psignal.c:1184-1203 | every post, take and mask change keeps that |
| SiginfoPool.RunsDeliverable | c/src/exec/posix/src/psignal.c:345-395 | in such a run the delivery loop leaves no unblocked signal pending |
| SiginfoPool.KillDelivers | c/src/exec/posix/src/psignal.c:1184-1206 | a signal posted to the process becomes pending, and unless it is refused the last handler call due for it is the one asked for, with its value |
| SiginfoPool.KillLeavesOthers | c/src/exec/posix/src/psignal.c:1184-1206 | the handler calls due for every other signal stay |
| SiginfoPool.KillThreadDelivers | c/src/exec/posix/src/psignal.c:1241-1292 | a signal sent to the thread, or a fault, is due before any of the process |
| SiginfoPool.ChosenThreadTakes | c/src/exec/posix/src/psignal.c:916-1206 | a thread is interested in a signal exactly if, after it is posted, a handler call for it is due there |
| SiginfoPool.TakeFindsIff | c/src/exec/posix/src/psignal.c:220-285 | a signal is taken exactly if it is pending where it is looked for and not blocked, if that counts |
| SiginfoPool.RefusedYetPending | c/src/exec/posix/src/psignal.c:1184-1198 | from every state: EAGAIN exactly for a siginfo signal with the pool exhausted, and then the signal is pending, nothing is queued and dispatching stays disabled |
| SiginfoPool.ValuelessIff | c/src/exec/posix/src/psignal.c:250-330 | a siginfo handler runs without a value exactly when its chain is empty |
| SiginfoPool.SigactionKeepsPendingIff | c/src/exec/posix/src/psignal.c:628-636 | the exact condition under which `sigaction` keeps chains and pending bits in agreement |
| SignalTarget.Scan | c/src/exec/posix/src/psignal.c:1045-1148 | finds a thread exactly when an interested one exists, and then the first of the best by priority, then ready, then interruptible |
| SignalTarget.Consider | c/src/exec/posix/src/psignal.c:1068-1146 | one round of the scan in its seven cases keeps the best so far |
| SignalTarget.SearchWaiting | c/src/exec/posix/src/psignal.c:1008-1029 | the first head of a priority group that takes the signal |
| SignalTarget.Choose | c/src/exec/posix/src/psignal.c:989-1166 | executing thread, then waiting, then the best of all; nobody is chosen exactly when nobody takes the signal or only a thread hidden behind the head of its group does |
| SignalTarget.HiddenWaiter | c/src/exec/posix/src/psignal.c:1016-1027 | two threads of one priority wait and only the second wants the signal |
| SporadicServer.ServerBound | c/src/exec/posix/src/pthread.c:54-118 | in every run after `pthread_setschedparam`, at most one budget is charged at high priority between replenishments, these come once a period, so at most one budget per whole period plus one is executed at high priority, with or without resources, up to three accounts: ticks not charged, ticks executed adrift and ticks executed overdrawn, each with a condition under which it is zero; current and real priority agree unless a plain mutex parts them |
| SporadicServer.BudgetExactly | c/src/exec/posix/src/pthread.c:54-118 | in every run the real priority is high exactly while fewer ticks than the initial budget were charged since the last replenishment, with the rest of the budget left, and low from then on; without a resource the thread runs at it unless a plain mutex parts them |
| SporadicServer.BudgetLasts | c/src/exec/posix/src/pthread.c:54-118 | from any point of its period, a preemptible, ready thread without resources that executes on end runs at high priority for what is left of its budget and then at low priority until the timer fires |
| SporadicServer.ReplenishedExactly | c/src/exec/posix/src/pthread.c:54-88 | the tick at which the timer fires starts a new budget and a new period and is the first that may be charged to it |
| SporadicServer.FullBudget | c/src/exec/posix/src/pthread.c:54-118 | after `pthread_setschedparam` such a thread is at high priority for exactly its initial budget if the period is longer; with a period as long as the budget it stays there unless both are one tick |
| SporadicServer.PrioritiesValid | c/src/exec/posix/src/pthread.c:575-676 | an accepted server is never given a priority that is not valid |
| SporadicServer.PriorityTakesEffect | c/src/exec/posix/src/pthread.c:575-676 | under every policy a thread without resources runs at the priority it was given, with the budget and the timer of its policy |
| SporadicServer.SlicesLast | c/src/exec/score/src/thread.c:974-981 | under the timeslice algorithms the budget counts down and starts over every timeslice |
| SporadicServer.NextKeeps | c/src/exec/posix/src/pthread.c:54-118 | the invariant behind it, for ticks, mode changes, blocking and every kind of mutex |
| SporadicServer.EqualTimesServe | c/src/exec/posix/src/pthread.c:614-622 | a period as long as the budget is acceptable for every tick length and any two valid priorities, so runs as in the bound exist |
| SporadicServer.NonPreemptibleUncharged | c/src/exec/score/src/thread.c:963-967 | a thread that is not preemptible executes any number of ticks uncharged at high priority |
| SporadicServer.PlainMutexKeepsHigh | c/src/exec/score/src/coremutex.c:280-291 | a budget spent under a plain mutex sets the thread adrift: at high priority, with the budget of the low one, its next tick counted |
| SporadicServer.PlainMutexHarmless | c/src/exec/score/src/coremutex.c:280-291 | with budget left the release of a plain mutex is harmless |
| SporadicServer.MatchedIff | c/src/exec/score/src/coremutex.c:270-291 | current and real priority part company exactly at a plain release of the last resource while they differ |
| SporadicServer.AdriftIff | c/src/exec/score/src/coremutex.c:270-291 | a thread comes adrift exactly at a plain release of the last resource at high priority with a low real one |
| SporadicServer.NeverAdriftIff | c/src/exec/score/src/coremutex.c:270-291 | a run has no adrift state exactly when it has no such release, and then no tick executed adrift |
| SporadicServer.OverdrawnIff | c/src/exec/posix/src/pthread.c:95-118 | a thread that holds a resource comes to run at high priority with a low real one exactly when its budget is spent there, it inherits its high priority, or it takes the resource adrift |
| SporadicServer.NeverOverdrawnIff | c/src/exec/posix/src/pthread.c:95-118 | a run has no overdrawn state exactly when it has no such step, and then no overdrawn tick |
| SporadicServer.HolderRunsOn | c/src/exec/posix/src/pthread.c:110-117 | a thread that spent its budget under a mutex executes any number of ticks at high priority while it holds it, up to its timer |
| SporadicServer.Scheduler.SporadicBudgetTSR | c/src/exec/posix/src/pthread.c:54-88 | the replenishment in place |
| SporadicServer.Scheduler.SporadicBudgetCallout | c/src/exec/posix/src/pthread.c:95-118 | the callout in place |
| SporadicServer.Scheduler.TickleTimeslice | c/src/exec/score/src/thread.c:946-990 | what a tick charges to the executing thread under each budget algorithm |
| SporadicServer.Scheduler.ClockTick | c/src/exec/rtems/src/clock.c:138-151 | timers first, then the charge |
| SporadicServer.Scheduler.SetSchedParam | c/src/exec/posix/src/pthread.c:575-676 | every EINVAL and ESRCH case leaves the thread alone; otherwise policy, budget, priority and timer are set |
| Timespec.Subtract | c/src/exec/posix/src/time.c:22-46 | the difference is right to the nanosecond, and normalised exactly under a condition on the nanosecond fields |
| Timespec.IntervalExact | c/src/exec/posix/src/time.c:53-69 | the interval is the number of whole ticks, less one when two remainders carry, and at least one |
| Timespec.IntervalIff | c/src/exec/posix/src/time.c:53-69 | for ticks up to 2^30 microseconds it is right to one tick exactly when 32 bits suffice |
| Timespec.IntervalWhole | c/src/exec/posix/src/time.c:53-69 | it is exact when the tick divides one second |
| Timespec.RoundTrip | c/src/exec/posix/src/time.c:53-88 | ticks to a time and back give the ticks, or one less exactly when the whole seconds are no multiple of the tick |
| Timespec.RoundTripWhole | c/src/exec/posix/src/time.c:53-88 | the round trip is exact when the tick divides one second |
| Timespec.TimedWait | c/src/exec/posix/src/cond.c:466-502 | already timed out exactly when the deadline precedes now; otherwise, for ticks up to 2^30 microseconds, the interval is the floor of remaining ticks or one less, exactly when 32 bits suffice |
| Timespec.LongWaitCutShort | c/src/exec/posix/src/time.c:59-60 | 4295 seconds become 32 ticks of a millisecond |
| Symbols.Search | c/src/libmisc/monitor/mon-symbols.c:188-214 | the uneven halving terminates and finds the nearest symbol exactly when it neither overruns the table nor is too far from every symbol, and what it returns then |
| Symbols.SortOrders | c/src/libmisc/monitor/mon-symbols.c:131-157 | the stand-in for `qsort` orders by value |
| Symbols.SortPermutes | c/src/libmisc/monitor/mon-symbols.c:151-157 | and permutes |
| Symbols.Table.Grow | c/src/libmisc/monitor/mon-symbols.c:74-86 | growth keeps the symbols; a failure loses them |
| Symbols.Table.Create | c/src/libmisc/monitor/mon-symbols.c:61-125 | when a symbol is added, and what each failure leaves |
| Symbols.Table.SortTable | c/src/libmisc/monitor/mon-symbols.c:151-157 | the used slots are sorted and permuted, the others untouched |
| Symbols.Table.ValueLookup | c/src/libmisc/monitor/mon-symbols.c:166-215 | the lookup on the table as a whole, with what lies after it |
| HexRecords.DecodePrint | c/build-tools/src/packhex.c:125-318 | every record printed, in all four formats, decodes with a right checksum to its address and bytes |
| HexRecords.GettersAgree | c/build-tools/src/packhex.c:105-301 | the field getters read out of a data record what it says |
| HexRecords.NdigitIsBigEndian | c/build-tools/src/packhex.c:505-513 | the digit loop computes the big-endian number of the bytes |
| HexRecords.GetNdigitHex | c/build-tools/src/packhex.c:505-513 | the digit loop |
| HexRecords.SumRecord | c/build-tools/src/packhex.c:125-318 | the checksum loop of the printers computes the sum of the record's bytes |
| HexRecords.PutDataRecord | c/build-tools/src/packhex.c:125-318 | the printers print the specified record |
| Packhex.PackAllSays | c/build-tools/src/packhex.c:391-463 | what is put out and then what is held says what was read, in order |
| Packhex.PreservedIff | c/build-tools/src/packhex.c:410-463 | the output says what the input says exactly when the input does not end in a record with data followed only by empty records at its end |
| Packhex.WithinIff | c/build-tools/src/packhex.c:416-444 | records stay within a limit below the maximum exactly when the stretches of consecutive data in the input do |
| Packhex.OutWithinIff | c/build-tools/src/packhex.c:410-458 | the records printed, without what is held, stay within it exactly when the stretches that ended do and the last fits into one record |
| Packhex.PackAllPacks | c/build-tools/src/packhex.c:416-440 | on files without empty data records no record exceeds the maximum, and only full records are continued by the next |
| Packhex.PackedIff | c/build-tools/src/packhex.c:410-458 | on every file only full records are continued by the next exactly when no record goes on with a stretch that an empty record elsewhere has cut short |
| Packhex.EmptyRecordBreaks | c/build-tools/src/packhex.c:416-428 | a record, an empty one elsewhere and a continuation of the first come out as two short records |
| PackhexFiles.PackFilePreservesMeaning | c/build-tools/src/packhex.c:391-463 | on files of text, the ordered stores and other lines are preserved exactly when the file does not end in data that is left held, a condition on its last records |
| PackhexFiles.SpliceRecords | c/build-tools/src/packhex.c:410-458 | the splicing loop on its buffer and counters prints the specified file |
| PackhexFiles.SpliceData | c/build-tools/src/packhex.c:416-444 | the three cases of a data record |
| PackhexFiles.SpliceLine | c/build-tools/src/packhex.c:411-457 | one pass of the loop |
| PackhexMain.IdentifyFirst | c/build-tools/src/packhex.c:480-494 | echoes the lines before the first record that some format recognises, and finds the first such format |
| PackhexMain.Pack | c/build-tools/src/packhex.c:391-463 | the whole program, and its failure when no line is a record |
| PackhexMain.PackPreservesMeaning | c/build-tools/src/packhex.c:391-494 | the whole output means what the whole input does exactly when the file does not end in data that is left held |
| Unhex.IntelAgrees | c/build-tools/src/unhex.c:291-396 | an Intel line is stored exactly if it is a data record, above the base, byte for byte |
| Unhex.SAgrees | c/build-tools/src/unhex.c:398-514 | an S line is stored exactly if it is a data record of S1, S2 or S3 whose address is not taken for an error |
| Unhex.GetNibble | c/build-tools/src/unhex.c:596-619 | the digit or -1 |
| Unhex.GetByte | c/build-tools/src/unhex.c:621-632 | the byte or -1 |
| Unhex.GetNBytes | c/build-tools/src/unhex.c:634-650 | the big-endian number or a word of ones |
| Unhex.GetData | c/build-tools/src/unhex.c:340-347 | the data loop: the bytes and their sum |
| Unhex.ConvertIntelLine | c/build-tools/src/unhex.c:312-393 | the loop body for Intel lines computes the specified outcome |
| Unhex.ConvertSLine | c/build-tools/src/unhex.c:418-511 | the loop body for S lines |
| Unhex.ConvertSData | c/build-tools/src/unhex.c:444-473 | its data records |
| UnhexFiles.ConvertFile | c/build-tools/src/unhex.c:291-514 | the converters on a text, read in pieces of at most 511 characters |
| UnhexFiles.ConvertTextIsLines | c/build-tools/src/unhex.c:310-318 | lines that fit the buffer are read one by one |
| UnhexFiles.LineEndsAgree | c/build-tools/src/unhex.c:310-318 | a file converts the same with either line end, as long as both characters fit the buffer |
| HexTools.PrintedRecordRead | c/build-tools/src/unhex.c:291-514 | a printed record that fits the buffer is stored at its address (above the base for Intel), byte for byte |
| HexTools.LongRecordRejected | c/build-tools/src/unhex.c:291-514 | one that does not fit makes unhex reject the file |
| HexTools.ReadableIffFits | c/build-tools/src/packhex.c:125-318 | it fits exactly up to 249, 250, 249 and 248 bytes |
| HexTools.PrintedRecordReadable | c/build-tools/src/packhex.c:125-318 | unhex accepts a printed record exactly when it fits and is not at the S3 address of all ones |
| HexPipeline.UnhexAfterPackhex | c/build-tools/src/packhex.c:391-463 | through the 512-character buffer of unhex, for convertible lines that fit it: the packed file is accepted exactly when the original is and no stretch of consecutive data that packhex prints and unhex reads exceeds the readable count (of a stretch that is left held, packhex prints nothing unless it overflows a full record); an accepted original and its packed file store the same bytes at the same addresses in the same order exactly when no stretch exceeds it and no data is left held |
| HexPipeline.UnhexAfterPack | c/build-tools/src/packhex.c:391-494 | the same for the whole program, which finds the format of the first record itself |
| HexPipeline.AdjacentRecordsRejected | c/build-tools/src/unhex.c:305-318 | two short records that adjoin and together exceed the readable count make unhex reject the packed file |
| HexImage.UnhexFileStoresImage | c/build-tools/src/unhex.c:291-514 | for the text of every file, Intel or Motorola: unhex accepts it exactly if every line is a record up to the first Intel end record, and stores exactly the bytes of the data records before the first line that is none, each at sixteen times the segment of the last extended-address record plus its address |
| HexImage.UnhexStoresImage | c/build-tools/src/unhex.c:291-514 | the same for lines |
| HexImage.ParseIs | c/build-tools/src/unhex.c:291-514 | every line is acted on as its record format says: the bytes by their place, and a checksum with which all of them add up to zero (Intel) or to a byte of ones (Motorola) |
| HexImage.WritesAre | c/build-tools/src/unhex.c:338-347 | the bytes of a record go to one address after the other |
| HexImage.EndRecordPassedOver | c/build-tools/src/unhex.c:474-497 | a Motorola end record is checked and passed over, and what follows it counts |
| HexImage.IntelDataIff | c/build-tools/src/packhex.c:105-108 | of the lines that hold an Intel record, packhex takes exactly the data records for one |
| HexImage.MotorolaDataIff | c/build-tools/src/packhex.c:180-286 | of the lines that hold a Motorola record, packhex takes exactly the data records of a format for one of it |
| HexImage.DataRecognised | c/build-tools/src/packhex.c:480-494 | every data record is recognised by some format |
| HexImage.RecordsWellFormed | c/build-tools/src/packhex.c:105-301 | every line that holds a record, and ends inside the address space if it is of data, meets the conditions under which packhex is modelled |

## Assumptions

- 32-bit `int`, `long` and `unsigned32`, with wrap-around written out where it matters
  (`Timespec`, `SporadicServer`, the sums and addresses of the hex tools); elsewhere
  counters are unbounded.
- An interrupt runs to its end before what it interrupted goes on. A device takes at least
  one byte of a run before it interrupts.
- Signal handlers post no signals and may leave any blocked mask behind.
- Between steps of a sporadic server anything may execute; scheduling itself is not part of
  the model. `pthread_setschedparam` is not called again in the run.
- `killinfo` uses the POSIX area of the executing thread without a check, so `Choose` asks
  for one.

## Left out

- Watchdog.TickTimers: routines insert timers and do not remove any.
- Watchdog.ForwardIsTicks: deltas are unbounded numbers but where a single operation wraps them.
- PackhexMain.Pack: the data records of its input are well-formed; on others packhex copies
  whatever follows in its line buffer, which is not part of this model.
- WatchdogInsert.InsertionCorrect: a nested insertion counts as one step, and an endless
  sequence of restarts is not excluded.
- Symbols.Table.SortTable: the library's `qsort` is not part of this model; an insertion
  sort with the same contract stands in for it.
- The string pool of the symbol table, lookup by name and the exact lookup: linear scans and copies.
- TerminalDriver.Driver.Osend: appends to the bytes sent; the ring that carries them is
  modelled on its own in `OutputRing`.
- Opening and closing terminals, polled input (`fillBufferPoll`), VMIN and VTIME, and the
  semaphore calls, which are blocking points here.
- `sigtimedwait`, `sigsuspend`, `alarm`, and the unblocking part of `pthread_kill`: they
  rest on thread queues.
- `sigaction` but for its effect on the pending set.
- The ready chains, thread dispatch and the priority bit map.
- The multiprocessing parts of events and messages.
- `convert_TI_records`, option parsing and file handling in the hex tools; line buffers of
  packhex are unbounded.
- The heap, regions, message queues, timers, rate-monotonic periods and the C library glue.
