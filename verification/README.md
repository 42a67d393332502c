# Boat control stack: a verified model

A Dafny model of the discrete core of a robot sailing boat's software, with proofs. Five parts are covered.

**The simulated clock** (`FakeClock`, `ClockInvariant`, `ClockRuns`, `ClockEvents`, `ClockView`, `ClockProgress`,
`ClockObject`, `PeriodicLoop`). Client threads hold a shared mutex while they run and give it up while they sleep; a
manager takes it exclusively and moves time to the earliest pending wake-up. The clock is a state machine whose steps
are the stretches of code between lock operations, with spurious wake-ups at any moment. One inductive invariant gives
everything else: the queue of wake-ups is exactly the bag of sleepers' deadlines, none in the past, and a sleeper
nobody has notified is not due. The main result is that in every run each thread sees a *sequential* clock: time
stands still while it runs and `SleepUntil(d)` returns at exactly the later of now and `d`. Periodic nodes and log
replay are then proved against that sequential clock, which records what they ask of it, and the record is put beside
the runs: a thread that has slept for the same deadlines has been told exactly the same times. A ranking shows that
every step that does some work brings the return of an earliest sleeper nearer, in any order. Who takes part, who
sleeps and who has been woken is also stated on the events of a run alone.

**The message queues** (`Channel`, `Ring`, `RingRuns`, `RingEvents`, `RingObject`, `TestQueue`, `TestQueueEvents`,
`TestQueueObject`). A shared-memory ring in which senders overwrite the oldest message and every reader keeps its own
cursor, and the in-process queue used in its place for testing. Both are related to one lossy broadcast channel. For
the ring that is an equivalence, stated on the events of a run alone: a run is a run of the channel exactly when every
wait that ends in a wake-up saw a message sent since it began, or began with its reader behind; and a concrete run
shows that the code lets a wait end otherwise.

**The line planner** (`Hypotheses`, `Planner`, `LegChoices`, `Optimizer`, `OptimizerResult`, `OptimizerEquations`,
`OptimizerSweep`, `OptimizerUniform`, `Search`, `TurnCost`, `TurnSlopes`). The list of hypotheses, built leg by leg by
extending entries in place and copying all but the last leg, is exactly the set of combinations within the point
budget, each once. What the optimizer returns is characterized for every terrain, by equations between the old and the
new course, and solved outright on a uniform terrain; together with the list that says what the planner's answer is.
The cost of a turn is shown, over the reals and for any positive pi, to measure the part of the swept arc inside the
no-go zone, and its two derivatives to be exact.

**The bit codecs** (`Bits`, `CanFields`, `CanMessage`, `CanReserved`, `CanId`, `CanIdLayout`, `FastPacket`, `Sbus`).
Field extraction at any alignment, message encoding and decoding, frame identifiers (section 5.3 of SAE J1939-21),
fast-packet reassembly and SBUS unpacking, all against one specification: the number spelled by a slice of the
buffer's bits, least significant first.

**Logs and requests** (`LogFile`, `Logger`, `LoggerEvents`, `Replay`, `ReplayLaws`, `Brackets`, `Splitter`, `Json`).
Length-prefixed records appended by concurrent handlers and read back, also from a file cut off anywhere; the replay
schedule; and the bracket-counting splitter of web-socket requests, with the exact condition, on quotes, brackets and
commas, under which it inverts rendering, and the JSON values that meet it.

`dafny verify dfyconfig.toml` checks the whole project.

## Reading the model

- Objects whose fields the program updates are classes (`ClockObject.MonotonicClock`, `RingObject.Header`,
  `RingObject.Handle`, `TestQueueObject.Queue`, `LogFile.LogReader`, ...), and its loops are loops. Each method's
  postcondition names a function of the old state, and the properties are proved about that function.
- Concurrency is a state machine over the code between lock operations. Runs are sequences of events; events that
  are not enabled do not happen.
- C++ widths are explicit where they matter: byte masks are cut to 8 bits, `ExtractNumberField` accumulates in a
  64-bit two's-complement register, record lengths are cut to 16 bits, `SetPGN` shifts an `int32_t` arithmetically.
  Shifting a signed accumulator past its width, which a 64-bit field does to the maximum, is taken to wrap.
- Clocks, files, queues, geometry, costs and gradients enter as parameters. Angles, costs and points are reals.

## Findings

Places where the code does less than its comments or callers suggest; each is stated exactly.

- A reader of the ring that is exactly a multiple of the capacity behind is told there is nothing new
  (`Ring.ReadyExactly`), and a notification that arrives late hands out a message twice
  (`RingRuns.LateNotificationRepeats`); `RingEvents.RingIsChannel` and `RingEvents.WakeExact` give the condition.
- A message that fills the 1024-byte buffer can be logged but stops the replay reader (`LogFile.RoundTrip`).
- A group number below PDU2 comes back without its low byte (`CanId.PgnRoundTrip`).
- The optimizer starts a leg on the gate the leg leads to, not on the gate just crossed: legs are sure to join exactly
  when the two gates are the same (`OptimizerResult.AlwaysJoinedExactly`), and on parallel gates never do
  (`OptimizerResult.ParallelGatesNeverJoin`).
- The optimizer's viability flag is never cleared, although the search that reads it says it rejects unsailable
  courses: it can be relied on exactly when there is no gate (`OptimizerResult.FlagRightExactly`).
- The splitter does not know JSON's escaped quote (`Json.EscapedQuote`); `Splitter.SplitExact` gives the condition.
- `Loop::WaitForNext` never returns for a period that is not positive once it is late (`PeriodicLoop.NeverReached`).

## Model

| member | source | states |
|---|---|---|
| `ClockInvariant.StepKeepsInv` | util/clock.cc:49-122 | Every step of every thread and of the manager keeps the invariant: pending wake-ups are the bag of sleepers' deadlines, none is in the past, an unnotified sleeper is not due, nobody holds the shared lock while the manager works; time never decreases, and only the manager's pass changes it |
| `ClockInvariant.WokenOnTime` | util/clock.cc:65-71 | A sleeper whose time has come finds the clock at exactly its deadline and its own entry on top, so the pop removes exactly that entry |
| `ClockInvariant.SleepKeeps` | util/clock.cc:58-62 | Going to sleep adds exactly the caller's deadline to the queue |
| `ClockInvariant.DropPastNothing` | util/clock.h:110-118 | The clean-up loop of set_wakeup finds nothing to drop when no entry is in the past |
| `ClockInvariant.PassKeeps` | util/clock.cc:100-113 | The manager's pass never moves time past a sleeper's deadline and leaves no due sleeper unnotified |
| `ClockRuns.Reachable` | util/clock.cc:49-122 | The invariant holds in every state reachable without shutdown |
| `ClockRuns.TimeMonotone` | util/clock.cc:97-122 | Time never runs backwards over a run |
| `ClockRuns.FrozenWhileHeld` | util/clock.h:99-105 | Time is the same at two moments between which some thread has kept the shared lock |
| `ClockRuns.NoOvertaking` | util/clock.cc:63-73 | A sleeper that returns has the earliest deadline of all sleepers, and the queue afterwards is exactly the other sleepers' deadlines |
| `ClockRuns.NoLostWakeup` | util/clock.cc:100-113 | When all clock holders sleep, a notified sleeper is due now or the manager's pass strictly advances time to the earliest deadline |
| `ClockEvents.AttachedExactly` | util/clock.cc:77-87 | In every run a thread takes part in the clock if and only if the last of its constructions and clean-ups of a ClockInstance was a construction |
| `ClockEvents.ManagerGetsItsTurn` | util/clock.cc:83-101 | As soon as every thread still attached, by its events, is asleep, the waiting manager can take the exclusive lock |
| `ClockEvents.StoryIsTrue` | util/clock.cc:49-113 | In every run the events tell whether a thread is out, running, about to test its deadline, or asleep, and whether it was woken since it last tested |
| `ClockEvents.DropPastExactly` | util/clock.h:110-118 | The clean-up of set_wakeup removes exactly the entries in the past |
| `ClockView.ThreadSeesSequentialClock` | util/clock.h:25-51 | In every run, for every thread: each SleepUntil is issued at the time the previous one returned and returns at the later of that time and its deadline; a running thread reads the time its last call returned at |
| `ClockView.Progress` | util/clock.cc:97-113 | From any state in which everyone sleeps, five steps wake a sleeper with the earliest deadline at that deadline and change nothing else |
| `ClockView.ThreadSeesWhatProgramSaw` | util/clock.h:25-51 | In every run, a thread that has so far slept for the deadlines a program slept for on a sequential clock of its own has been told exactly the times the program was told |
| `ClockProgress.StepWorks` | util/clock.cc:63-113 | When everyone sleeps, every step except spurious wake-ups and extra manager rounds lowers a rank until an earliest sleeper returns at its deadline |
| `ClockProgress.NeverStuck` | util/clock.cc:97-113 | There is always such a step to take |
| `ClockProgress.ProgressBound` | util/clock.cc:63-113 | Any run of more such steps than the rank, in any order, contains the return of a sleeper at the earliest deadline there was |
| `ClockObject.MonotonicClock.NextWakeup` | util/clock.h:79-82 | The minimum of the pending wake-ups, or the current time if there are none |
| `ClockObject.MonotonicClock.SetTime` | util/clock.h:101-105 | Sets the time and leaves the queue alone |
| `ClockObject.MonotonicClock.SetWakeup` | util/clock.h:110-118 | The queue becomes the old one with a future time added and past entries dropped; the top stays the minimum |
| `ClockObject.MonotonicClock.WaitPredicate` | util/clock.cc:63-73 | True exactly when the deadline has come, having removed one entry equal to it if that is the minimum |
| `ClockObject.MonotonicClock.ManagerPass` | util/clock.cc:110-112 | Performs the manager's step of the state machine |
| `PeriodicLoop.VirtualClock.SleepUntil` | util/clock.cc:93-95 | One thread's clock jumps to the later of now and the deadline, and records the call |
| `PeriodicLoop.NextTriggerIsLeast` | util/clock.cc:29-37 | The trigger picked is the first later point of the grid that is not in the past |
| `PeriodicLoop.NeverReached` | util/clock.cc:31-35 | When the period is not positive and one step is not enough, no number of steps reaches the present |
| `PeriodicLoop.GridIs` | util/clock.cc:29-37 | The k-th point of the grid is start + k periods |
| `PeriodicLoop.Loop.constructor` | util/clock.cc:25-27 | The grid starts at the time of construction |
| `PeriodicLoop.Loop.WaitForNext` | util/clock.cc:29-37 | Terminates exactly under its precondition, picks the trigger, makes one sleep and returns at exactly that time |
| `PeriodicLoop.RunNode` | util/node.cc:20-31 | Iteration j happens at start + (j+1) periods: no drift, no missed cycle; and the sleeps made are those of a thread that follows the loop |
| `PeriodicLoop.NodeNeverDrifts` | util/node.cc:20-31 | In every run of the clock beside any other threads, a thread that makes the sleeps `RunNode` makes returns from its j-th at start + (j+1) periods |
| `Channel.DeliveredAsPublished` | ipc/message_queue.hpp:559-634 | Over any run of the channel each message handed out is the one published under its number, cut to the buffer |
| `Channel.DeliveriesIncrease` | ipc/message_queue.hpp:559-634 | Over any run of the channel one reader's message numbers strictly increase |
| `Ring.SlotIsResidue` | ipc/message_queue.hpp:312-319 | The slot of message k is (-k) mod the capacity |
| `Ring.SendExtendsLog` | ipc/message_queue.hpp:497-531 | A send keeps the ring equal to the last messages of the send log: first slot, count and contents |
| `Ring.OldestKept` | ipc/message_queue.hpp:284-293 | end_index is the slot of the oldest message kept |
| `Ring.AdvanceStaysInWindow` | ipc/message_queue.hpp:608-630 | Whatever the cursor, what is read is one of the messages kept |
| `Ring.ReadyExactly` | ipc/message_queue.hpp:575-578 | A reader has to wait exactly when the sends since its last message are a multiple of the capacity |
| `Ring.ReceiveExactly` | ipc/message_queue.hpp:608-630 | Otherwise it gets a later message out of the ring under its number, the clamp does not move the cursor, and it is the very next message exactly when the reader is less than a ring behind |
| `Ring.ResumeExactly` | ipc/message_queue.hpp:582-600 | After a wait the newest message is read |
| `RingRuns.StepExact` | ipc/message_queue.hpp:497-634 | Every step keeps ring and cursors related to log and numbers, and is a channel step exactly when it does not repeat a message |
| `RingRuns.RunRelated` | ipc/message_queue.hpp:497-634 | After any run from a fresh ring, the ring holds the last messages of the log and every cursor stands at its reader's last number |
| `RingEvents.FetchExact` | ipc/message_queue.hpp:559-634 | In any run, a poll or an unblocked receive gets nothing exactly when the reader's lag, counted from the events, is a multiple of the capacity, and otherwise the message lag mod capacity from the end, which is the next one exactly when the lag is below the capacity |
| `RingEvents.WakeHandsOutNewest` | ipc/message_queue.hpp:581-600 | A wake-up hands out the newest message accepted |
| `RingEvents.HandedAsSent` | ipc/message_queue.hpp:608-630 | In any run whatever is handed out is byte for byte the message accepted under its number |
| `RingEvents.WakeExact` | ipc/message_queue.hpp:581-600 | A wake-up gives something new if and only if a message was sent since the call that began the wait, or the reader was then behind, by a whole number of rings |
| `RingEvents.RingIsChannel` | ipc/message_queue.hpp:497-634 | A run is a run of the channel if and only if every wait that ends in a wake-up meets that condition on events |
| `RingEvents.ReaderNeverGoesBack` | ipc/message_queue.hpp:559-634 | If every wait ends by timeout or after a message sent since it began, any two messages handed to one reader have increasing numbers, and each is the message accepted under its number |
| `RingRuns.LateNotificationRepeats` | ipc/message_queue.hpp:525-528 | A concrete run in which a late notification delivers a message a second time |
| `RingObject.Header.constructor` | ipc/message_queue.hpp:264-269 | A new ring models the empty log |
| `RingObject.Header.OldestIndex` | ipc/message_queue.hpp:284-293 | Computes end_index |
| `RingObject.Header.InsertAtBegin` | ipc/message_queue.hpp:312-319 | Moves the first slot down by one, round the ring, and counts the message |
| `RingObject.Header.DoSend` | ipc/message_queue.hpp:497-531 | Performs the send step on the slots in place; an oversized message changes nothing |
| `RingObject.Handle.TakeNext` | ipc/message_queue.hpp:608-630 | Advances and clamps the cursor and returns the message under it |
| `RingObject.Handle.TryReceive` | ipc/message_queue.hpp:559-634 | Size error, nothing, or the next message, exactly as the value model says |
| `RingObject.Handle.AfterWait` | ipc/message_queue.hpp:582-600 | What a woken reader reads |
| `RingObject.SendThenPoll` | ipc/queue_test.cc:31-39 | A poll after a send gives the message the log promises for any backlog |
| `TestQueue.StepRefines` | ipc/test_queue.cc:12-65 | Every step of the in-process queue is a channel step; a reader gets the newest message under a strictly larger number |
| `TestQueue.SendReachesReaders` | ipc/test_queue.cc:26-35 | When send returns through its predicate, every live reader that has asked has had a message at least as new |
| `TestQueue.WaitingReaderIsRegistered` | ipc/test_queue.cc:38-53 | A reader inside receive, or that has received, is one that send waits for |
| `TestQueue.TestQueueIsChannel` | ipc/test_queue.cc:12-65 | Every run is a run of the same channel the ring is related to |
| `TestQueueEvents.EventsTell` | ipc/test_queue.cc:12-65 | In every run counter, buffer, users table and what each instance is inside of are determined by the events |
| `TestQueueEvents.SendReturnsExactly` | ipc/test_queue.cc:26-35 | A send can return through its predicate if and only if every instance that is alive and has asked for a message has received the newest |
| `TestQueueEvents.SendReachesAskers` | ipc/test_queue.cc:26-35 | Then each has received a message at least as new as the one sent, by the number of sends up to it |
| `TestQueueObject.QueueData.ReadersCaughtUp` | ipc/test_queue.cc:26-35 | True exactly when no registered reader is behind the counter |
| `TestQueueObject.Queue.constructor` | ipc/test_queue.h:24-34 | Registers a new instance, not reading, at the end of the users table |
| `TestQueueObject.Queue.Destroy` | ipc/test_queue.h:35-43 | Unregisters it and says whether it was the last |
| `TestQueueObject.Queue.StartSend` | ipc/test_queue.cc:12-25 | Counts and stores the message, cut to the maximum size: the state machine's step of that name |
| `TestQueueObject.Queue.StartReceive` | ipc/test_queue.cc:38-40 | Registers a first-time reader |
| `TestQueueObject.Queue.FinishReceive` | ipc/test_queue.cc:52-64 | Records the counter as received and returns the message, cut to the buffer: the state machine's step, with its label |
| `Hypotheses.RowsMembers` | control/line_plan.cc:439-461 | The entries of a level are exactly the affordable extensions of the previous level's entries |
| `Hypotheses.RowsDistinct` | control/line_plan.cc:439-461 | No combination is listed twice |
| `Hypotheses.FrontAdmissible` | control/line_plan.cc:442-448 | Pruning after each leg loses nothing: a combination within the final budget was within every earlier one |
| `Hypotheses.FirstAlwaysFits` | control/line_plan.cc:442-453 | The single-point candidate always fits, so every entry has been extended before it is copied |
| `Hypotheses.LevelComplete` | control/line_plan.cc:429-468 | If a level lists every admissible choice once, so does the next |
| `Planner.GenerateHypotheses` | control/line_plan.cc:562-626 | Appends one candidate, or three when upwind, each with one point more than asked for |
| `Planner.LegHypotheses` | control/line_plan.cc:431-435 | The candidates of a leg with fewer intermediate points than the leg limit |
| `Planner.LegCandidatesShaped` | control/line_plan.cc:431-435 | The first candidate is a single point and none exceeds the limit |
| `LegChoices.LegCandidatesExactly` | control/line_plan.cc:562-626 | A point sequence is a candidate exactly if it is the leg's start followed by the points placed for fewer points than the limit, straight, or in one of two tacks when upwind |
| `LegChoices.OfferedCourse` | control/line_plan.cc:413-436 | A leg of a course on offer starts at the boat or in the middle of the gate before it and has its points placed towards the middle of its own gate |
| `Planner.EntryShrinks` | control/line_plan.cc:450-457 | Copying all but the last leg gives back the entry as it was before the leg was added |
| `Planner.AddOne` | control/line_plan.cc:440-461 | One turn of the inner loop: skip, extend in place, or extend a copy |
| `Planner.AddLeg` | control/line_plan.cc:437-467 | After a leg the list stands for exactly the next level, with true lengths |
| `Planner.StartList` | control/line_plan.cc:462-466 | The first leg lists each of its candidates |
| `Planner.EligibleIsAdmissible` | control/line_plan.cc:410-411 | The per-leg limits amount to a total of at most the larger of the number of legs and six |
| `Planner.BuildHypotheses` | control/line_plan.cc:410-468 | The list contains exactly every choice of one candidate per leg within the total, once, and the recorded lengths are the numbers of points |
| `Optimizer.BackPass` | control/line_plan.cc:643-714 | Moves the crossing, then the points from the last to the second, each seeing the moved one after it; keeps the number of points and the first point, and the crossing on its gate; viable when all its lines are |
| `Optimizer.LegStepKeeps` | control/line_plan.cc:538-558 | A turn of the leg loop changes only its own leg and fraction, puts the leg's first point on its own gate at the previous fraction, and leaves the flag as it was |
| `Optimizer.OptimizeMultipleTacks` | control/line_plan.cc:512-560 | The nested loops compute the descent the lemmas below are about |
| `OptimizerResult.OptimizedKeeps` | control/line_plan.cc:512-560 | For every terrain and course: numbers of points and first point kept, every crossing between 0.1 and 1, every later leg on its own gate at the previous fraction, flag true |
| `OptimizerResult.JoinedExactly` | control/line_plan.cc:544-548 | A leg starts where the previous one ends if and only if the two gates have the same point at the fraction of the crossing |
| `OptimizerResult.AlwaysJoinedExactly` | control/line_plan.cc:544-548 | It does so whatever the terrain if and only if the two gates are the same |
| `OptimizerResult.ParallelGatesNeverJoin` | control/line_plan.cc:544-548 | On a gate and the same gate moved aside legs never join, whatever the terrain |
| `OptimizerResult.UnsailableAccepted` | control/line_plan.cc:553-557 | On a terrain where every line is reported not viable, the flag says viable |
| `OptimizerResult.FlagRightExactly` | control/line_plan.cc:555-557 | The flag says whether the lines of the last iteration are viable, whatever the terrain, if and only if there is no gate |
| `OptimizerEquations.ImprovedSolves` | control/line_plan.cc:683-712 | Every point of a leg but the first ends up at its old place less the step times its gradient, priced between the old point before it and the new point after it, on the headings and with the weight the code uses; costs add up and viability is that of all |
| `OptimizerEquations.PassedSolves` | control/line_plan.cc:643-714 | The same for a whole pass, with the crossing moved first, kept between 0.1 and 1, and its place on the gate in coordinates |
| `OptimizerSweep.SweepSolves` | control/line_plan.cc:530-558 | An iteration solves all legs' equations at once: each leg entered from the new end of the one before it, led on to the old start of the one after it, started on its own gate at the new fraction of the one before; the cost is the sum of the legs' |
| `OptimizerUniform.UniformResult` | control/line_plan.cc:512-560 | With constant prices and one gradient for all points, fifty iterations carry every point but the first of a leg 0.297 gradients down, and the cost is a line for every leg and a pair for every other point |
| `Search.Cheapest` | control/line_plan.cc:470-492 | Keeps the first of the cheapest optimized courses whose flag says viable; if there is none, the unoptimized first one and the caller's fractions |
| `Search.FindMultiplePath` | control/line_plan.cc:402-493 | The answer is the optimizer's result for a course on offer, no course on offer is optimized to a lower cost, and it starts at the boat and crosses every gate |
| `OptimizerUniform.FewestPoints` | control/line_plan.cc:470-492 | On such a terrain, if points cost anything, one course is cheaper than another exactly if it has fewer points |
| `TurnCost.NormAngleExact` | control/util.cc:74-82 | Normalizing changes an angle by whole turns and lands between -pi and pi |
| `TurnCost.NormalizeExact` | control/line_plan.cc:1032-1050 | Turn and zone edges, normalized and mirrored, are the true ones up to whole turns |
| `TurnCost.SweptZone` | control/line_plan.cc:1052-1063 | A heading swept by the turn is within 45 degrees of straight upwind exactly when it lies between the two angles whose difference is charged |
| `TurnCost.ArcInTurn` | control/line_plan.cc:1058-1063 | The charged arc is not negative and not longer than the turn, which is at most pi |
| `TurnCost.PriceTurn` | control/line_plan.cc:1052-1072 | Both branches charge the square of the weighted angle and report its slopes |
| `TurnCost.ArcExists` | control/line_plan.cc:1052-1063 | For every turn the swept headings within 45 degrees of upwind are those from some lo to some hi radians into it |
| `TurnCost.TurnCost` | control/line_plan.cc:1026-1073 | Whenever the swept headings within 45 degrees of upwind are exactly those from lo to hi radians into the shorter turn, the cost is kTurnCost times the square of the turn plus (kTackCost - 1) times (hi - lo) |
| `TurnSlopes.CostEndDerivative` | control/line_plan.cc:1056-1071 | The reported derivative by the final heading is exact, with its quadratic remainder, while no edge is crossed |
| `TurnSlopes.CostStartDerivative` | control/line_plan.cc:1055-1069 | The same for the initial heading |
| `TurnSlopes.NoTurn` | control/line_plan.cc:1052-1057 | From no turn at all: the reported derivatives are zero, and a change of either heading costs at most quadratically in it |
| `CanFields.MaskedByte` | can/can.cc:282-285 | Mask and shift take exactly the wanted bits out of a byte |
| `CanFields.ValueStep` | can/can.cc:281-286 | One pass of the loop appends the next bits of the slice, modulo the register |
| `CanFields.MaxStep` | can/can.cc:288-289 | The same pass appends ones to the maximum |
| `CanFields.SignFill` | can/can.cc:297-300 | Or-ing in the complement of the maximum subtracts 2^size |
| `CanFields.ExtractNumberField` | can/can.cc:272-302 | For every buffer, start bit and size up to 64: the LSB-first slice, sign-extended if signed, and the maximum 2^size-1 or 2^(size-1)-1 (-1 for 64 bits) |
| `CanMessage.DecodeFields` | can/can.cc:200-267 | Field i is decoded from the sum of the sizes before it, by its kind, and omitted when its value is reserved |
| `CanMessage.DecodeCoordinate` | can/can.cc:218-238 | A byte-aligned latitude or longitude of 32 or 64 bits is the two's-complement slice, omitted when reserved against the largest value of its width; any other comes out as 0 |
| `CanReserved.UnsignedReserved` | can/can.cc:17-21 | An unsigned field is omitted exactly for the top three numbers of its width from four bits on, the top two of two or three bits, one of one bit, and only all ones of 64 |
| `CanReserved.SignedReserved` | can/can.cc:17-21 | A signed field exactly for the same top numbers of its positive half, one bit later, and only -1 of 64 bits |
| `CanReserved.DatesAndTimes` | can/can.cc:240-252 | A date is two bytes and a time four, lowest first, from the byte its field starts in |
| `CanReserved.CoordinateElse` | can/can.cc:218-220 | A latitude or longitude out of step with the bytes, or of another width, comes out as zero |
| `CanReserved.CoordinateReserved` | can/can.cc:221-239 | A latitude or longitude exactly for the top three numbers of its positive half |
| `CanMessage.CopiedIsSlice` | can/can.cc:224-252 | Bytes copied into an integer are the LSB-first slice at that byte |
| `CanMessage.ConstructMessage` | can/can.cc:332-365 | Succeeds exactly when all fields are whole bytes; then the fields lie in order, little-endian, and the rest is 0xFF |
| `CanMessage.FieldSlice` | can/can.cc:336-352 | In a constructed frame the slice of a field is the low bits of its number |
| `CanMessage.OtherFieldUntouched` | can/can.cc:348-351 | The bytes of a field that is not a number are left as they were |
| `CanMessage.WireRoundTrip` | can/can.cc:345-347 | Cutting an integer to its field and reading it back returns it, signed or unsigned |
| `CanMessage.EncodeDecode` | can/can.cc:317-368 | Decoding a constructed frame returns every number encoded, at its running offset |
| `CanId.IdRoundTrip` | can/pgn.cc:6-13 | Struct to word and back is the identity |
| `CanId.RawRoundTrip` | can/pgn.cc:6-13 | Word to struct and back is the identity |
| `CanIdLayout.Layout` | can/pgn.h:8-28 | The parts of an identifier are bit slices of the word's four little-endian bytes: source at 0, PS at 8, PF at 16, data page at 24, priority at 26, extended-frame flag at 31 |
| `CanIdLayout.ConstructLayout` | can/pgn.cc:6-9 | The same in the word made of a struct |
| `CanIdLayout.GroupNumber` | can/pgn.cc:11-18 | The group number of a received word is bits 8 to 24, without the low byte when PF is below 240 |
| `CanIdLayout.SetGroup` | can/pgn.cc:20-29 | Setting a group number changes exactly those bits, and leaves the destination address of a PDU1 format |
| `CanIdLayout.FrameIdSays` | can/can.cc:354-358 | An outgoing frame carries source 0x15, priority 5 and the extended-frame flag, and decodes to its group number for every 17-bit PDU2 number |
| `CanId.PgnRoundTrip` | can/pgn.cc:15-29 | A group number survives set, pack, unpack and get exactly when it has 17 bits and is PDU2 or has a zero low byte; source and priority are untouched |
| `CanId.PduOneLosesLowByte` | can/pgn.cc:15-18 | A PDU1 number comes back with its low byte cleared |
| `FastPacket.StoreFrame` | can/can.cc:151-172 | Writes the payload of a frame at its place and nothing else |
| `FastPacket.Tiles` | can/canboat-pgn.h:49-59 | Byte j of the payload lies in the room of frame (j + 1) / 7 and of no other; only the last frame's room reaches past the payload |
| `FastPacket.ReceivedByte` | can/can.cc:154-172 | After any frames in any order, with any repeats and any padding, the payload bytes of the frames seen are in place and those of the others untouched; past the payload only the last frame writes, and only in its room |
| `FastPacket.Reassembly` | can/can.cc:151-172 | Once every index has arrived the buffer starts with exactly the payload |
| `FastPacket.FragmentCarries` | can/canboat-pgn.h:49-59 | A frame built from the payload, cut short or filled up, carries its index and its share |
| `FastPacket.PaddedReassembly` | can/canboat-pgn.h:39-59 | A payload sent in eight-byte frames filled with 0xFF, received in any order with any repeats, comes out whole |
| `FastPacket.PaddedFit` | can/can.h:26-27 | The buffer allocated for a message takes every padded frame exactly when it takes the last one |
| `Sbus.ReadChannel` | sensor/read-sbus.cc:97-109 | Eleven bits from any alignment out of two or three bytes |
| `Sbus.UnpackChannels` | sensor/read-sbus.cc:95-112 | Channel i is bits 11i to 11i+10 |
| `Sbus.PackUnpack` | sensor/read-sbus.cc:95-112 | Unpacking inverts packing, whatever the two trailing bytes |
| `Sbus.UnpackPack` | sensor/read-sbus.cc:86-88 | The channels determine all 22 payload bytes |
| `Sbus.AgreesWithCanField` | can/can.cc:272-302 | A channel is what the CAN decoder extracts as an 11-bit unsigned field at the same bit |
| `LogFile.LogReader.ReadLogMessage` | util/log-replay.cc:115-130 | Reads the record at the front of the stream, or reports its end, or refuses its length |
| `LogFile.LogReader.ReadRecords` | util/log-replay.cc:49-54 | Everything the reader gets out of the rest of a file |
| `LogFile.RoundTrip` | util/log-replay.cc:115-130 | What was written reads back whole if and only if no message fills the buffer; otherwise up to the first that does |
| `LogFile.WholeInIsLargest` | util/log-replay.cc:118-127 | n records end within k bytes exactly when n is at most the number counted |
| `LogFile.TruncatedRead` | util/log-replay.cc:118-127 | A file cut anywhere reads back as the longest prefix of whole records |
| `LogFile.HeaderRoundTrip` | util/log-replay.cc:26-27 | The start time reads back |
| `LoggerEvents.HeaderLayout` | util/logger.cc:12-22 | The start time's eight bytes, lowest first |
| `LoggerEvents.RecordLayout` | util/logger.cc:12-18 | A record is the low byte of its length, the high byte, and the message |
| `Logger.LogWriter.constructor` | util/logger.cc:20-22 | A log starts with its start time |
| `Logger.LogWriter.WriteRecord` | util/logger.cc:49-52 | Appends one record |
| `Logger.Reachable` | util/logger.cc:40-55 | Under any interleaving of handlers the file is the header, whole records and at most one length |
| `Logger.LogReadsBack` | util/logger.cc:12-55 | At any moment of any run, cut anywhere after the header, the file reads back as the longest prefix of the records begun |
| `Logger.QueueOrderKept` | util/logger.cc:44-52 | Each queue's records are what its handler received, in order, but for one in hand |
| `LoggerEvents.EventsTell` | util/logger.cc:40-55 | In every run the lock, the records and what each handler has received and holds are determined by the events |
| `LoggerEvents.QueueOrderOnEvents` | util/logger.cc:44-52 | So each queue's records are the messages its handler's receive events brought, in order, but for one in hand |
| `LoggerEvents.HandlerTurn` | util/logger.cc:44-53 | With the lock free, the four steps of a turn are possible and append exactly one record |
| `Replay.TakeFields` | util/log-replay.cc:55-78 | Time stamp, queue name, handled bytes and opened queues after a record; stamp and name persist when a record lacks them |
| `Replay.Run` | util/log-replay.cc:43-112 | Sends exactly the scheduled messages, or stops at the first record that breaks the process; asks its clock for exactly the sleeps the log calls for |
| `Replay.ClockIsLatestStamp` | util/log-replay.cc:79-87 | The clock shows the largest of the start time and the stamps of unskipped records so far |
| `Replay.ReplaySchedule` | util/log-replay.cc:43-112 | One send for each record with a queue and a target whose stamp has come to the flag's seconds times a billion, and no other, in file order, at the latest such stamp so far, with its queue and bytes |
| `ReplayLaws.StampIsLast` | util/log-replay.cc:46-63 | A record counts under the last time stamp in the file up to it |
| `ReplayLaws.QueueIsLast` | util/log-replay.cc:48-64 | And under the queue of the last message in the file up to it |
| `ReplayLaws.DefaultReplaysAll` | util/log-replay.cc:12-13 | With the flag at zero or below and no negative stamp, every record with a queue and a target is replayed |
| `ReplayLaws.LaterFlagReplaysLess` | util/log-replay.cc:79-82 | Raising the flag only removes records |
| `ReplayLaws.RenamedReplay` | util/log-replay.cc:69-107 | A renamed queue is sent under its new name with its message moved, and not at all when renamed to nothing |
| `ReplayLaws.PlainReplay` | util/log-replay.cc:43-112 | Without renaming, ignoring, handlers or flag, every record is sent in file order, on its own queue, with its own bytes, at the latest stamp so far |
| `ReplayLaws.BreaksExactly` | util/log-replay.cc:57-98 | A record stops the process exactly if it has more than two fields, or is in the window and renamed to or from a name the log entry does not have |
| `Replay.ReplayOnFakeClock` | util/log-replay.cc:83-87 | In every run of the simulated clock, a thread that has made the sleeps of the first i records runs at the schedule's time |
| `Replay.ReplayMidway` | util/log-replay.cc:83-87 | At any moment, having made some of the sleeps `Run` makes, it runs at the schedule's time after some first records |
| `Splitter.ScanValue` | ui/server.cc:119-139 | The scan breaks off at the first place where an unopened bracket closes or a comma stands bare, with the depth there; otherwise it reaches the end of the text |
| `Splitter.ProcessMembers` | ui/server.cc:114-149 | The loop ends on every text and finds the members the specification finds |
| `Splitter.Process` | ui/server.cc:101-149 | The same for a message with its braces; undefined exactly for an empty text and a lone opening brace |
| `Splitter.MiddleValue` | ui/server.cc:119-149 | With a member behind it, a value is cut out whole exactly when its quotes pair up, its brackets outside quotes pair up and no comma stands bare |
| `Splitter.LastValue` | ui/server.cc:140-149 | At the end of the text, exactly when its brackets pair up, no comma stands bare and it does not end in a comma |
| `Splitter.SplitExact` | ui/server.cc:101-149 | For clean names, splitting a rendered object returns its members if and only if every value is balanced for its place |
| `Brackets.BracketedBalanced` | ui/server.cc:129-137 | Brackets round text with paired quotes and brackets hide its commas |
| `Brackets.QuotedBalanced` | ui/server.cc:126-128 | A string without quotes in it is balanced whatever else it holds |
| `Json.PrintBalanced` | ui/server.cc:82-86 | The text of every JSON value, of numbers, strings, lists and objects nested to any depth, is balanced |
| `Json.SplitInvertsRender` | ui/server.cc:101-149 | Every list of members with clean names and balanced values is returned, in order |
| `Json.SplitObject` | ui/server.cc:82-149 | Every JSON object with clean names is split into exactly its names and the texts of its values |
| `Json.EscapedQuote` | ui/server.cc:126-128 | A string value with one escaped quote, whatever surrounds it, is never cut out whole |

## Left out

- ClockProgress.ProgressBound: that the scheduler takes working steps at all, and that extra manager rounds and spurious wake-ups do not crowd them out.
- PeriodicLoop.NodeNeverDrifts: bodies that sleep themselves; for them only the choice of the trigger is stated.
- RingRuns.RingIsChannel: a notification that reaches a reader while the ring is still empty, after which a timeout leaves its cursor displaced.
- TestQueue.TestQueueIsChannel: shutdown, erasing and recreating the entry of the queue table, and overflow of the int counter.
- CanMessage.ConstructMessage: fields beyond 64 bits in total, which the code would write past the frame, and the scaling of a double to the wire integer.
- CanMessage.DecodeFields: the scaling of the integers to physical units, and reads past the end of the buffer.
- FastPacket.StoreFrame: frames that would land past the message buffer, which the code does not check for; `PaddedFit` says which messages have none.
- Optimizer.BackPass: the values of the costs and gradients, which use exp, sqrt and atan2.
- Search.Cheapest: costs that are infinite or not a number.
- TurnSlopes.CostEndDerivative: changes that cross an edge of the zone or reach half a circle, where the cost has a kink; a turn of size zero is `NoTurn`.
- TurnSlopes.CostStartDerivative: the same.
- The end-of-message test for fast packets, which compares a count of bits with a table entry in bytes.
- Clock behaviour across a shutdown that is then cancelled, the real-time clock, and setting the start time while threads sleep.
- Construction and destruction of `Queue` and its semaphore, and `ReadFile`, which does not skip the header.
- Protobuf parsing and JSON conversion, sockets, serial ports and the web-socket hub.
- Obstacle costs and polygon distance, the adaptive, simple and line-tacking controllers, ballast, rigid wing, state estimation and the simulators: floating-point control laws, or small clamps and mode switches that would only add easy members.
