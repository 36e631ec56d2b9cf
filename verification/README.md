# A verified model of the thread pool, the timing wheel and the AAWS messages

The repository offers three building blocks: a thread pool with three task
classes, a hashed timing wheel that feeds it, and a websocket message format
whose router decides which service a message is queued for.  This project
models all three in Dafny and proves what they promise over every input, every
run and every interleaving; where the code does less than its comments say, it
proves exactly when it does what they say, and gives a concrete run or message
for the case where it does not.

## Layout

| files | contents |
|---|---|
| `PoolQueues`, `ThreadPool` | the three queues as values; the `thread_pool` object and its critical sections |
| `PoolProtocol`, `PoolInvariants`, `PoolTheorems`, `PoolCalls`, `ReleaseExit` | workers, callers of `add_task` and callers of `release` as interleaved threads, one access to shared state a step; what every step keeps; what follows for whole runs; what becomes of each call and each task; which threads `release` sees out |
| `Wheel`, `TimeWheel` | the wheel as a value; the `time_wheel` object with its loops, each method proved to be the operation on values |
| `Countdown`, `WheelTheorems` | a plain countdown scheduler; the wheel refines it; delay, cancel and cell reuse over whole runs |
| `WheelPool`, `WheelPoolInvariants`, `WheelPoolTheorems` | wheel and pool interleaved step by step, with both mutexes and calls of `cancel_timer` that take neither |
| `WheelPoolCancels`, `WheelPoolRefinement` | what an answer of `cancel_timer` is worth then; interleaved ticks refine ticks that happen at once |
| `Bytes`, `Frame`, `Builder`, `Message` | the memory layout of the frame, the walks over it, the sending side, the `aaws_message` object |
| `Codec`, `Accessors` | round trip, injectivity, agreement of the accessors |
| `Routing`, `RoutingTheorems` | `service_router` and `service_mgr`; from what was appended to what is queued |

## Where the code and its comments differ

The model follows the code.  Each item names the member that proves it.

- `release` is documented to block until every thread has exited
  (`utils/thread_pool.h:50`).  It guarantees that no worker runs a task or will
  ever start one (`ReleaseIsFinal`).  Whether it also sees a worker out is decided
  when the exit flag is up and the notification still to come: it can return
  before that worker has exited exactly when the worker has not been created, has
  not reached its first test of the queues, is asleep, is woken but not back at
  the queues, or has tested the flag too early and is about to block
  (`OutlivedExactly`); so the promise as a whole is kept exactly when no worker is
  at one of these points (`ExitPromiseKeptExactly`).  A worker of the last kind
  misses the notification and stays asleep (`MissedExactlyWhenParking`, with a full
  run in `ReleaseLeavesASleeper`).  A thread that `add_task` started directly is in
  no count, and `release` does not wait for it.
- A highest-priority task is documented to get a thread of its own when all
  threads are busy.  The recorded thread count ends as -1
  (`utils/thread_pool.h:37-42`), so it gets one exactly while initialisation is
  unfinished and no task is running (`DirectExactlyBeforeInit`); in the run of
  `BusyYetQueued` every worker is inside a task and the new one is queued.
- `run` has no loop: each worker takes at most one task in its life
  (`TasksConserved`), so a task can be left over only once all are used up
  (`LeftoverMeansUsedUp`).
- The wheel fills slots 0 to 99 and visits slots 1 to 100
  (`utils/thread_pool.h:250,269-279`).  With the hand at `cur`, a delay of `ms`
  is kept exactly when `ms % 100` is positive and less than `100 - cur`; otherwise
  the task is one revolution late, or, on slot 0, never dispatched
  (`OnTimeExactly`): on a fresh wheel a delay of 100 takes 200 ticks and one of 99
  never ends (`LateAndLost`).  Counting slots and revolutions from the next tick
  would make every positive delay exact (`ShiftedPlacementIsExact`).
- `init_wheel` posts one tick and no more (`utils/thread_pool.h:187-203`);
  a tick is a step that may happen any number of times here.
- `cancel_timer` declares a new local lock instead of taking the wheel's mutex
  (`utils/thread_pool.h:212`), so that its search, its test of the count and its
  store are separate accesses.  After it answers true the task can still be
  dispatched exactly when, at the store, it was in the pool already or a tick was
  inside its `add_task` call (`CancelRaceExactly`, with a run in `RaceHappens`);
  with the mutex free from before the search to the store the answer is final
  (`CancelUnderLockIsFinal`).  The store silences whichever timer the cell holds by
  then, which is another one exactly when the cell has been reused
  (`StoreSilences`); `StaleStoreHappens` is a run in which a timer that nobody
  asked to stop is never dispatched.  The test, too, looks at whichever timer the
  cell holds by then (`TestAsksTheCell`), so the answer can be true for a timer
  long dealt with, against the comment (`ReusedTestPasses`).
- An extension header takes 10 bytes in memory, two of them alignment padding;
  the comments say 8.
- Extensions appended after options are not found again by the receiver
  (`RoundTripExactly`, `OrderMatters`).
- The indexed `get_option` steps by whole frame headers instead of bytes
  (`websocket_demo/message/aaws_message.h:320`) and is right for id 0 only
  (`IndexedOptionAgreesOnlyAtZero`); what it reads for any id is stated by
  `IndexedOptionReads`, and on some messages it leaves the buffer
  (`LaterOptionFails`), on others it hands out part of a record
  (`IndexedOptionCutsShort`).  In bytes it would be right for every id
  (`ByteStepWouldAgree`).
- `get_uri` prints option 0 first, so for a message without options it reads
  outside a string before it looks at anything (`RoutesAsSent`).
- `unregist` erases a uri only when it is absent, hence never
  (`Routing.ServiceMgr.Unregist`).

## Model

| member | source | states |
|---|---|---|
| PoolQueues.DequeueServesBest | utils/thread_pool.h:126-149 | get_task takes the oldest task of the best class that has one, highest before timer before normal, changes no other class, and finds nothing exactly when all three queues are empty |
| PoolQueues.AdmitAppends | utils/thread_pool.h:76-98 | add_task in the source's terms: behind what its own class holds, or a thread of its own for highest priority when the two numbers agree |
| ThreadPools.ThreadPool.InitThreadPool | utils/thread_pool.h:29-45 | starts one worker per processor on the first call, none later, and leaves the recorded thread count at -1 |
| ThreadPools.ThreadPool.AddTask | utils/thread_pool.h:71-98 | queues behind its class, or gives a highest-priority task its own thread when the counters are equal; nothing else changes |
| ThreadPools.ThreadPool.GetTask | utils/thread_pool.h:126-149 | takes what the queue specification takes, or answers false and changes nothing |
| PoolInvariants.InvStep | utils/thread_pool.h:51-125 | every step of every thread keeps mutex ownership, the running counter, callable safety, the exit guarantees, the wake-up invariant, queue balance, ownership of taken tasks, start-at-most-once and service order |
| PoolInvariants.InvReachable | utils/thread_pool.h:29-149 | those invariants hold in every reachable state, for any number of workers, adders and releasers |
| PoolInvariants.ZeroIsQuiet | utils/thread_pool.h:55-56 | a releaser that sees the counter at 0 under the mutex leaves nobody inside a task and nobody able to enter one, although the exit flag was stored without the mutex |
| PoolInvariants.WakeStep | utils/thread_pool.h:98-114 | every step keeps: no task waits behind a sleeper unless a notify_all is under way |
| PoolInvariants.TakenInOrder | utils/thread_pool.h:126-149 | when a task is taken, every queued task that precedes it in class or in order has been taken |
| PoolTheorems.ReleaseIsFinal | utils/thread_pool.h:51-63 | once release has returned no worker is inside a task and on no continuation does one enter a task |
| PoolCalls.RequestIsServed | utils/thread_pool.h:76-98 | the switch puts the caller's own task behind its own class and logs it so, or gives it a thread; nothing else changes |
| PoolCalls.RequestsAccountedFor | utils/thread_pool.h:71-101 | over every run the calls begun are, with class and task, exactly those that came to be logged, given a thread, or pending |
| PoolCalls.EveryCallIsAccountedFor | utils/thread_pool.h:71-101 | from the start: the calls begun are those logged, given a thread, or still before their switch |
| PoolCalls.CountedIsEntered | utils/thread_pool.h:119-121 | once counted, a task is entered whatever the exit flag says by then |
| PoolCalls.FinishedComesFromRunning | utils/thread_pool.h:121-122 | a task is finished only by having been entered |
| PoolCalls.RunExactlyWhenEntered | utils/thread_pool.h:111-124 | over every run a worker counts as having run a task exactly when it was inside func() with that task at some point |
| PoolCalls.StartedExactlyWhenEntered | utils/thread_pool.h:119-121 | the record of starts holds exactly the workers that were inside func() with a task they had taken |
| PoolCalls.CallAlone | utils/thread_pool.h:71-101 | an undisturbed add_task ends in four moves: task placed, every sleeper woken, mutex free |
| PoolCalls.WorkerAlone | utils/thread_pool.h:104-125 | an undisturbed worker with a task queued takes the oldest of the best class, runs it and exits, counter and mutex as before |
| PoolCalls.DropsAlone | utils/thread_pool.h:113-118 | with the exit flag up it takes the task all the same and drops it |
| PoolCalls.ReleaseAlone | utils/thread_pool.h:51-63 | an undisturbed release with nothing running raises the flag, wakes every sleeper and returns |
| PoolCalls.ReleaseLooksAgain | utils/thread_pool.h:56-62 | while a task runs, release gives the mutex up, sleeps and looks again |
| ReleaseExit.OutlivedExactly | utils/thread_pool.h:50-63 | with the exit flag up and the notification to come, some continuation has release returned and a given worker not exited exactly when that worker is uncreated, before its first test, asleep, woken, or about to block |
| ReleaseExit.ExitPromiseKeptExactly | utils/thread_pool.h:50-63 | release returns only after every thread has exited, on every continuation, exactly when no worker is at one of those points |
| PoolTheorems.BusyYetQueued | utils/thread_pool.h:78-88 | a concrete run in which every worker is inside a task and a highest-priority task is queued instead of getting a thread |
| PoolTheorems.MissedExactlyWhenParking | utils/thread_pool.h:51-54 | after release's notification a worker can ever be asleep again exactly when it stood between its test of the exit flag and blocking |
| PoolTheorems.ReleaseLeavesASleeper | utils/thread_pool.h:50-63 | a concrete run in which release returns and the only worker is asleep |
| PoolTheorems.NoLostWakeUp | utils/thread_pool.h:71-114 | in every reachable state a sleeping worker beside a non-empty queue means some add_task is between its push and its notify_all |
| PoolTheorems.LeftoverMeansUsedUp | utils/thread_pool.h:104-125 | when only sleepers could move and a task is queued, every worker has returned |
| PoolTheorems.TasksConserved | utils/thread_pool.h:71-149 | per class the tasks queued so far are those taken followed by those still queued, in order, and no more are taken than there are workers |
| PoolTheorems.EachTakenTaskHasOnePlace | utils/thread_pool.h:111-124 | a taken task is with exactly one worker, undecided, in progress, finished, or dropped; dropped only after exit was raised |
| PoolTheorems.NoTaskStartsTwice | utils/thread_pool.h:119-121 | two entries into func() are for two different tasks, both taken from a queue |
| PoolTheorems.ServedInOrder | utils/thread_pool.h:76-98 | over any run a task queued earlier is taken before every lower-class task and every later task of its class that is taken afterwards |
| PoolTheorems.CounterAndCallable | utils/thread_pool.h:111-123 | the counter equals the workers between increment and decrement and stays within 0 and the number of workers, and no empty function is ever called |
| PoolTheorems.HolderMoves | utils/thread_pool.h:51-125 | whoever holds the mutex can move, and each move brings it closer to giving the mutex up |
| PoolTheorems.HolderFinishes | utils/thread_pool.h:51-125 | the holder alone gives the mutex up within five moves |
| PoolTheorems.DirectExactlyBeforeInit | utils/thread_pool.h:78-84 | a task gets its own thread exactly when it is highest priority, initialisation is unfinished and no task is running |
| TimeWheels.TimeWheel.InitWheel | utils/thread_pool.h:187-203 | starts one thread that will post one tick |
| TimeWheels.TimeWheel.PostTick | utils/thread_pool.h:189-201 | that thread, after its sleep, posts one highest-priority tick |
| TimeWheels.TimeWheel.CancelTimer | utils/thread_pool.h:210-230 | the loop is the specified cancellation: state and answer |
| TimeWheels.TimeWheel.AddMsTask | utils/thread_pool.h:238-265 | the loop is the specified insertion, reusing the first expired cell, and returns the new id |
| TimeWheels.TimeWheel.AddSTask | utils/thread_pool.h:233-236 | insertion with 1000 times the delay |
| TimeWheels.TimeWheel.Process | utils/thread_pool.h:280-291 | the callables of the due, uncancelled cells of the slot join the timer queue one for one in cell order, every count there is lowered, and nothing else changes |
| TimeWheels.TimeWheel.Tick | utils/thread_pool.h:196-198 | turn then process, with the callable of each firing cell queued in order; in step with the countdown scheduler, each task that fires there is queued once |
| Wheel.NextInv | utils/thread_pool.h:210-291 | every operation keeps each id in the bucket it is indexed under, at most once |
| Wheel.AddLookup | utils/thread_pool.h:248-264 | an insertion finds the new cell under its id and loses no live cell: at most one expired one |
| Wheel.CancelLookup | utils/thread_pool.h:210-230 | cancelling answers whether the id has a live cell and clears only that cell's valid flag |
| Wheel.TickLookup | utils/thread_pool.h:269-291 | a tick lowers by one the count of every cell under the hand and of no other |
| Wheel.TickDispatches | utils/thread_pool.h:280-291 | a cell is dispatched exactly when it is the indexed cell of its id, under the hand, at count 0 and valid |
| Wheel.PlaceReusesFirst | utils/thread_pool.h:248-263 | a new cell replaces the first one whose count is negative, or goes behind the last when there is none |
| Wheel.FiringInOrder | utils/thread_pool.h:283-290 | what a tick fires are the cells at count 0 that are valid, all of them, from first to last |
| Wheel.FiringDistinct | utils/thread_pool.h:280-291 | one tick dispatches no id twice |
| WheelTheorems.LeftDropsByOne | utils/thread_pool.h:269-291 | each tick brings every live entry of a visited slot exactly one tick closer, and it is one tick away exactly when the hand is about to find it at count 0 |
| WheelTheorems.PlacementIsDelay | utils/thread_pool.h:243-250 | the slot and count computed amount to the delay the countdown scheduler uses, for every int delay including negative ones |
| WheelTheorems.OnTimeExactly | utils/thread_pool.h:238-250 | a timer with a delay of ms >= 0, inserted after any past and left alone for ms + 100 ticks, is dispatched on tick ms exactly when 0 < ms % 100 < 100 - cur, never exactly when ms + cur falls on slot 0, and otherwise on tick ms + 100 |
| WheelTheorems.LateAndLost | utils/thread_pool.h:238-291 | on a fresh wheel that only ticks, a delay of 100 is dispatched on tick 200 and a delay of 99 never |
| WheelTheorems.ShiftedPlacementIsExact | utils/thread_pool.h:243-250 | placement counted from the next tick would make every positive delay exact |
| WheelTheorems.NextView | utils/thread_pool.h:210-291 | every operation acts on each issued timer as on a countdown of its own |
| WheelTheorems.WheelRefinesCountdown | utils/thread_pool.h:210-291 | over every sequence of insertions, cancellations and ticks: same ids, same cancel answers, and each tick dispatches the timers the countdown scheduler fires, once and with their tasks |
| WheelTheorems.TickQueuesWhatFires | utils/thread_pool.h:280-291 | the callables of a tick's cells, in turn, are the tasks the countdown scheduler fires, each once |
| WheelTheorems.PlacedIsServed | utils/thread_pool.h:243-291 | the delay law for an arbitrary slot and count |
| WheelTheorems.DispatchedExactlyWhenDue | utils/thread_pool.h:238-291 | a timer inserted after any past is dispatched once, on its tick and with its task, unless stopped before; never on another tick |
| WheelTheorems.CancelAnswersExactly | utils/thread_pool.h:209-230 | the answer is true exactly for an issued timer whose tick has not come, always on slot 0 |
| WheelTheorems.CancelIsFinal | utils/thread_pool.h:209-230 | after true no continuation of whole operations dispatches it; unissued ids are refused |
| WheelTheorems.LengthIsAPeak | utils/thread_pool.h:248-263 | the length of a visited slot's list is the number of timers live in it at some moment of the run |
| WheelPoolInvariants.InvStep | utils/thread_pool.h:192-291 | every step of wheel and pool together keeps mutex ownership, the calls under way, the order and uniqueness of dispatches, and that a dispatched timer's cell is spent |
| WheelPoolTheorems.PoolIsReachable | utils/thread_pool.h:280-291 | seen from the pool the wheel is one more user: all pool theorems hold in the composition |
| WheelPoolTheorems.SomeHolderMoves | utils/thread_pool.h:192-200 | no deadlock between the two mutexes: some holder can always move |
| WheelPoolTheorems.WheelMutexComesFree | utils/thread_pool.h:192-200 | from every reachable state with the wheel's mutex held, finitely many moves of the holders alone end with it free |
| WheelPoolTheorems.TimersQueuedOnce | utils/thread_pool.h:280-291 | timers enter the pool in the order of their ticks, none twice, even with cancels in mid-tick |
| WheelPoolTheorems.TimersTakenInTickOrder | utils/thread_pool.h:126-149 | workers take timers in the order of their ticks and never one twice |
| WheelPoolTheorems.DispatchedTimerHasOnePlace | utils/thread_pool.h:93-149 | a dispatched timer is either in the timer queue or with exactly one worker, undecided, in progress, finished, or dropped after exit |
| WheelPoolCancels.StoppedForGood | utils/thread_pool.h:209-230 | a timer stopped before it was being dispatched is never dispatched, over every continuation of single steps |
| WheelPoolCancels.CallCanFinish | utils/thread_pool.h:280-289 | a dispatch under way can always be brought to its push |
| WheelPoolCancels.CancelRaceExactly | utils/thread_pool.h:209-230 | at the store of a call of cancel_timer, which answers true: some continuation has the timer dispatched exactly when it is in the pool already or being handed over |
| WheelPoolCancels.CancelUnderLockIsFinal | utils/thread_pool.h:209-230 | with nobody holding the wheel's mutex from before the search to the store, the answer true is final |
| WheelPoolCancels.UninterruptedCancel | utils/thread_pool.h:210-230 | search, test and store in one go are the cancellation of whole wheels |
| WheelPoolCancels.StoreSilences | utils/thread_pool.h:213-224 | the store clears the flag of the timer the cell holds by then and of no other; that is another timer exactly when the cell has been reused |
| WheelPoolCancels.TestAsksTheCell | utils/thread_pool.h:217-220 | the test goes on exactly when the timer in the cell by then is live, be it the one asked for or another; another exactly when the cell has been reused |
| WheelPoolCancels.ReusedTestPasses | utils/thread_pool.h:209-220 | a concrete run in which the test passes for a timer already dispatched, its cell reused |
| WheelPoolCancels.StaleStoreHappens | utils/thread_pool.h:213-264 | a concrete run in which a late store stops a timer that nobody asked to stop |
| WheelPoolCancels.RaceHappens | utils/thread_pool.h:212-212 | a concrete run in which cancel_timer, having passed its test with the mutex free, answers true and the timer is dispatched later |
| WheelPoolRefinement.StepIsAtomic | utils/thread_pool.h:238-291 | every step but those of cancel_timer is, seen from the end of the tick under way, no operation or one operation on the whole wheel with its dispatches |
| WheelPoolRefinement.InterleavingRefinesWheel | utils/thread_pool.h:192-291 | over any stretch without cancels between ticks the wheel goes through the operations completed and the pool's log gains exactly the timers they fire, stamped and in order |
| WheelPoolRefinement.TickInPieces | utils/thread_pool.h:196-198 | one interleaved tick ends as turn then process on the whole wheel, and queues the same timers |
| WheelPoolRefinement.DelayLawInterleaved | utils/thread_pool.h:238-291 | under every interleaving without cancels a timer is queued once, on the tick its delay names, and on no other |
| Frame.HeadRoundTrip | websocket_demo/message/aaws_message.h:18-73 | the header read from a buffer is the header written in front of it, whatever follows |
| Builder.PayloadLength | websocket_demo/message/aaws_message.h:195-240 | for any interleaving of calls the payload is as long as the header's lengths say, up to the width of the fields |
| Builder.BuildCounts | websocket_demo/message/aaws_message.h:205-227 | counters and lengths are those of the records appended, modulo 2^8 and 2^32 |
| Builder.ExtsFirstLayout | websocket_demo/message/aaws_message.h:195-229 | appending extensions first puts their area before the options |
| Builder.LastSubmitAbsorbs | websocket_demo/message/aaws_message.h:235-245 | submitting early, appending more and submitting again gives the same object and bytes as submitting once |
| Codec.ExhWalkBuilt | websocket_demo/message/aaws_message.h:330-344 | each extension walk recovers the records in order, stays inside and stops right behind them |
| Codec.OptWalkBuilt | websocket_demo/message/aaws_message.h:288-302 | the option walk recovers the records in order, stays inside and stops right behind them |
| Codec.WalksMeet | websocket_demo/message/aaws_message.h:288-344 | the extension walk ends where the option walk starts and the option walk ends at payloadLen, which is the buffer's length |
| Codec.RoundTripExactly | websocket_demo/message/aaws_message.h:195-344 | the receiver recovers method, sequence, counts, lengths and every record exactly when the message fits its fields and extension records precede option records |
| Codec.ExtsFirstRoundTrip | websocket_demo/message/aaws_message.h:195-344 | with extensions appended first, the round trip holds exactly when the message fits |
| Codec.OrderMatters | websocket_demo/message/aaws_message.h:195-344 | one option followed by one extension is not recovered, however well it fits, unless the two records begin alike |
| Codec.EncodingInjective | websocket_demo/message/aaws_message.h:195-245 | messages that fit and are in order have equal bytes exactly when method, sequence, extensions (alignment bytes included) and options are equal |
| Codec.WireLayout | websocket_demo/message/aaws_message.h:18-73 | the 40 bytes sent first, field by field at their offsets, every number with its lowest byte first |
| Codec.ExtRecordLayout | websocket_demo/message/aaws_message.h:75-100 | the bytes of an extension record |
| Codec.OptRecordLayout | websocket_demo/message/aaws_message.h:102-128 | the bytes of an option record |
| Messages.Message.Sender | websocket_demo/message/aaws_message.h:140-175 | a fresh draft: default header, 40-byte placeholder |
| Messages.Message.Receiver | websocket_demo/message/aaws_message.h:177-182 | a message over the received buffer |
| Messages.Message.GetPayload | websocket_demo/message/aaws_message.h:249-259 | the received buffer, or the payload being built |
| Messages.Message.AppendOption | websocket_demo/message/aaws_message.h:195-210 | appends one option record and counts it |
| Messages.Message.AppendExh | websocket_demo/message/aaws_message.h:216-229 | appends one extension record and counts it |
| Messages.Message.Submit | websocket_demo/message/aaws_message.h:235-245 | completes the header and overwrites the placeholder with it |
| Messages.Message.CollectExhs | websocket_demo/message/aaws_message.h:330-344 | the loop shared by the list forms collects what the walk yields, or stops before a read outside the buffer |
| Messages.Message.CollectOptions | websocket_demo/message/aaws_message.h:288-302 | the loop of the list form of get_option collects what the walk yields |
| Messages.Message.GetExhs | websocket_demo/message/aaws_message.h:330-431 | the list forms of get_exh, get_exh_payload and get_exh_8bit append the walk's pieces to the caller's list |
| Messages.Message.GetExh | websocket_demo/message/aaws_message.h:350-446 | the indexed forms of get_exh, get_exh_payload and get_exh_8bit |
| Messages.Message.GetOptions | websocket_demo/message/aaws_message.h:288-302 | the list form of get_option appends the walk's pieces to the caller's list |
| Messages.Message.GetOption | websocket_demo/message/aaws_message.h:308-325 | the indexed form of get_option, with the header pointer as the code computes it |
| Accessors.IndexedExhAgrees | websocket_demo/message/aaws_message.h:350-446 | on any buffer the list form can walk, each indexed extension accessor hands out the list's entry for a valid id and answers -1 for every other |
| Accessors.WholeIsHeaderAndBody | websocket_demo/message/aaws_message.h:330-431 | get_exh's entry is its header bytes followed by get_exh_payload's entry |
| Accessors.ExhOffset | websocket_demo/message/aaws_message.h:350-366 | behind i records the offset is the base plus their sizes |
| Accessors.ReceivedExtension | websocket_demo/message/aaws_message.h:350-446 | from a built message the indexed accessors hand out extension i: the record, the data appended, the first ten bytes |
| Accessors.IndexedOptionReads | websocket_demo/message/aaws_message.h:308-325 | what the indexed get_option returns for any buffer and any id, through the header positions it goes to |
| Accessors.IndexedOptionMissing | websocket_demo/message/aaws_message.h:310-313 | it answers -1 exactly for an id that is no option |
| Accessors.IndexedOptionCutsShort | websocket_demo/message/aaws_message.h:308-325 | a well-formed message on which it stays inside and hands out 8 bytes of a record of 2008 |
| Accessors.LaterOptionFails | websocket_demo/message/aaws_message.h:308-325 | for every id from 1 on, a well-formed message that has that option in the list form and on which the indexed get_option leaves the buffer |
| Accessors.IndexedOptionAgreesOnlyAtZero | websocket_demo/message/aaws_message.h:308-325 | the indexed get_option agrees with the list form on all well-formed messages exactly for id 0 |
| Accessors.ByteStepWouldAgree | websocket_demo/message/aaws_message.h:308-325 | with the step counted in bytes it would find every option of the list |
| Routing.ServiceRouter.GetUri | websocket_demo/service/service_router.cpp:6-52 | computes the route of the received bytes, or reports the read outside a string |
| Routing.ServiceRouter.FirstUri | websocket_demo/service/service_router.cpp:29-51 | the loop over the options with its early returns |
| RoutingTheorems.RoutesAsSent | websocket_demo/service/service_router.cpp:6-52 | for every message that fits and is in order, the uri is the one the sender named, by extension 0 or else by the first JSON option; without options a read leaves a string |
| RoutingTheorems.RouteIsDecided | websocket_demo/service/service_router.cpp:6-52 | for every built message with an option the answer is the service_uri that the deciding data name, or empty when they are no JSON or name none |
| RoutingTheorems.ExtensionDecidesAlone | websocket_demo/service/service_router.cpp:10-25 | for every built message with an option, a first extension decides the route of the received bytes alone |
| RoutingTheorems.FirstJsonDecidesAlone | websocket_demo/service/service_router.cpp:29-50 | for every built message without extensions, the first JSON option decides the route of the received bytes alone, even when it does not parse or names no uri |
| RoutingTheorems.NoJsonNoUri | websocket_demo/service/service_router.cpp:28-52 | for every built message without extensions and JSON options, the uri is empty |
| RoutingTheorems.SendAndDispatch | websocket_demo/service/service_mgr.cpp:34-44 | end to end: submit, payload, receiver and commit queue one normal task for the service whose uri the deciding data name, or answer -1 with every queue unchanged |
| Routing.ServiceMgr.OnMessage | websocket_demo/server/websocket_server.cpp:169-186 | wraps the received buffer and commits it |
| Routing.ServiceMgr.Regist | websocket_demo/service/service_mgr.cpp:18-22 | enters the service under its uri, replacing an earlier one |
| Routing.ServiceMgr.Unregist | websocket_demo/service/service_mgr.cpp:24-32 | answers 0 and never changes the registry |
| Routing.ServiceMgr.GetService | websocket_demo/service/service_mgr.cpp:46-55 | the registered service or nothing |
| Routing.ServiceMgr.Commit | websocket_demo/service/service_mgr.cpp:34-44 | queues exactly one normal task for the service registered at the message's uri and answers 0, or answers -1 with every queue unchanged |

## Left out

- Integer widths of the wheel and the pool: delays, revolution counts and ids are unbounded here; the C++ code overflows `ms + m_current_scale` near the largest int and `count` after some 2^31 visits of a slot.  The frame's fields have their C++ widths.
- Wall-clock time, the 1 ms and 100 ms sleeps, fairness of the scheduler, the processor count and the lifetime of detached threads: the number of workers is a parameter, and liveness is claimed only for holders of a mutex.
- `weak_ptr` and `shared_ptr` lifetimes, the bodies of tasks and exceptions thrown in them: a task is an opaque value that may call `add_task` and ends normally.
- `run`, `release` and the unlocked parts of `add_task` as methods: they wait on other threads, so they are threads of a step system; `ThreadPools.ThreadPool` holds the parts that run inside one critical section.
- Data races on fields that the code leaves unprotected: the wheel's maps in `cancel_timer` are read in one step by its search, and its test and its store are one step each; `m_thread_num`, and `_services` in `regist` and `unregist`, change in one step. What a torn access would do is not part of this model.
- A bucket that is reallocated while `cancel_timer` holds a reference into it: the model lets the reference stay good.
- WheelPoolRefinement.InterleavingRefinesWheel: covers stretches without cancels; what a cancel in the middle of a tick does is the subject of `WheelPoolCancels`.
- WheelTheorems.WheelRefinesCountdown: compares the dispatches of one tick as a set without repetition; their order within a tick, that of the cells, is stated by `TimeWheels.TimeWheel.Process`.
- The order in which `notify_all` releases sleepers: any order is possible in the model.
- Record accessors on an object that is being sent: they read behind the object's own header rather than its payload, so the model's accessors require a received message.
- Reads outside the buffer: the model reports them (`Outside`, `Beyond`, `None`) and says nothing about the values the C++ code would see.
- The JSON reader: an arbitrary function from bytes to "no JSON", "no service_uri" or a uri; its exceptions for a uri that is no string or a root that is no object are not part of this model.
- The CRC fields, which the code leaves zero, and the names and console output of the dump functions, except that `dump_msg` reads option 0.
- Sessions, the websocket server except for `on_message`, the client, `file_helper.h` and the command-line demo: plumbing over libraries with thin state of their own.
