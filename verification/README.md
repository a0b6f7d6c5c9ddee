# Protocols and algorithms of the Linux exercises, verified

The repository is a collection of exercises in Linux system programming. This project models the
parts of it that hold a real protocol or algorithm, and proves what they are for.

* **Thread pool** (`util/thread_pool/thread_pool.c` over `util/queue/queue.c`). `ThreadPoolProtocol` is a
  transition system: one mutex, two condition variables, any number of workers and producers, and the
  control thread. A step is one critical section, from a lock to the unlock or to the `cond_wait` that ends
  it. Which sleepers a signal wakes (at least one, if there are any), spurious wakeups, the identifiers of
  new threads and pending SIGQUITs are parameters of the steps, so a theorem about all runs covers every
  schedule. `ThreadPool` is the same program as a class with the fields of `thread_pool_t`; every method is
  proved to do what the corresponding step says, and `Perform` covers all steps. What holds of runs is in
  `ThreadPoolAccounting` (the invariant), `ThreadPoolTheorems`, `ThreadPoolWakeups` and `ThreadPoolShutdown`;
  `ThreadPoolCalls` says what every thread and caller sees of a step.
* **Epoll reactor** (`internet/epoll_reactor.c`). Slots, callbacks, the kernel's interest list, open
  descriptors, address blocks and the rest of the current batch. `ReactorProtocol` is the specification,
  `EpollReactor` the program, `ReactorProofs` the invariants, `ReactorEcho` what
  becomes of the bytes, and `ReactorCallbacks` what each callback does.
* **Semaphores** (`process_func/IPC/POSIX_SEMAPHORE/`). `BoundedBuffer` (two counting semaphores around a
  ring, with atomic calls), `BufferRace` (the same with the calls split into loads and stores) and
  `SemaphoreMutex` (an owner-checked mutex from a binary semaphore), statement by statement.
* **Parallel sort** (`thread/barrier.c`). `ParallelSort` is the barrier protocol, `StableMerge` the k-way
  merge, for every number of threads and every chunk size.
* **Select server** (`internet/echo_server_tcp_udp_select.c`). The client table, the descriptor set and the
  count of ready descriptors.
* **Streams and framing** (`internet/wrap/wrap.c`, `internet/test_struct_*.c`, `internet/echo_server.c`).
  The loops around `read` and `write` under every fragmentation, lines, and messages with a header.
* **Percent-encoding** (`useful_func/url_encode_decode.c`; section 2.1 of RFC 3986).
* **Condition-variable producer and consumer** (`thread/cond.c`).

`Threads` and `TidList` are the counting lemmas that the protocols share, `Basics` holds bytes and two
functions on numbers. Where the source updates memory step by step there is a class or a method that does the
same, proved against a specification function; the theorems are about the specification functions and their
runs.

## Where the code does less than one would expect

Each of these has a lemma with a concrete input or run, beside a lemma that says exactly when the property
does hold.

* A worker's wakeup can be lost while exits are requested (`ThreadPoolWitnesses.WakeupLostByExits`): a woken
  worker uses the task's signal to exit, and the task stays in the queue while another worker sleeps with no
  exit pending. `ThreadPoolWakeups.WakeupKeptIff` names the steps that do this; without exits there are none.
* The pool can be emptied below its minimum (`ThreadPoolWitnesses.PoolEmptied`), because every tick adds to
  `wait_exit_thread_cnt` again while the exits of the previous tick are still pending. An empty pool never
  starts a task again (`EmptyPoolStaysDead`): with no threads the load is not a number, so nothing expands.
  `ThreadPoolTheorems.MinimumKeptIff` names the ticks that break the minimum.
* The control thread can leave at `util/thread_pool/thread_pool.c:164` before it ever broadcasts
  `queue_not_full`; a producer that sleeps there is stranded (`ThreadPoolWitnesses.ProducerStranded`,
  `ThreadPoolShutdown.StrandedForEver`). `ThreadPoolShutdown.ReleasedAtExitIff` says when all are released.
* The comment at `util/thread_pool/thread_pool.c:102` says that a shrink aims at half of the threads being
  busy. The code also keeps the minimum, and counts threads that have been asked to leave as if they stayed:
  `ThreadPoolTheorems.ShrinkAimsAtHalfIff`, `ThreadPoolWitnesses.ShrinkMissesHalf`.
* `sem_mutex_unlock` clears the owner after the post. When the next owner is already in, its own unlock
  returns silently and the mutex is locked for ever (`SemaphoreMutex.UnlockFailsSilently`, `DeadForEver`).
  `SpoiledIff` says when this threatens.
* The reactor loses bytes in two ways: what it has read in a loop that then meets the end of the stream
  (`ReactorWitnesses.LastBytesAreDropped`), and what is still in the buffer of a connection that expires
  because its client does not read (`UnreadBytesExpire`). `ReactorEcho.SettledIff` and `ClosedEchoedIff` say
  that these are the only ways.
* `queue_add` and `queue_pop` of the bounded buffer have no lock. Overlapping calls can leave an element behind
  and a consumer with nothing (`BufferRaceWitness.OverlappingCallsLoseAnElement`). `BufferRace.SpoiledIff` names
  the copies and stores that spoil the ring, and `SerialRunsAreSafe` is the buffer whose calls do not overlap.
* `thread_pool_add_task` answers success for a task that it drops after the shutdown
  (`ThreadPoolWitnesses.SuccessForDroppedTask`, `ThreadPoolShutdown.SuccessMeansAcceptedIff`).
* The comment at `useful_func/url_encode_decode.c:8` lists `-`, `*` and `_` as characters that are kept. The
  code encodes them, and keeps `/` (`UrlCodec.DocumentedCharactersChange`, `KeptIff`).

## Model

| member | source | states |
|---|---|---|
| `ThreadPoolTheorems.CountersMatchThreads` | util/thread_pool/thread_pool.c:225-289 | in every run `cur_thread_cnt` is the number of live workers and of used slots and never exceeds the maximum, `act_thread_cnt` is the number of workers inside a task, and no branch that reports an impossible situation is taken |
| `ThreadPoolTheorems.WorkerOwnsOneSlot` | util/thread_pool/thread_pool.c:185-190 | in every run each live worker's identifier stands in exactly one slot of `tid_list` |
| `ThreadPoolTheorems.TasksConserved` | util/thread_pool/thread_pool.c:265-272 | in every run the accepted tasks, in order, are the started tasks followed by the queue; the queue keeps its bound |
| `ThreadPoolTheorems.StartedOnceEach` | util/thread_pool/thread_pool.c:274-285 | every started task is finished or running, not both, and runs at one worker only |
| `ThreadPoolTheorems.HistoryIsKept` | util/thread_pool/thread_pool.c:409-442 | along a run accepted, started and finished tasks are never taken back or reordered |
| `ThreadPoolCalls.CallEnqueuesItsTask` | util/thread_pool/thread_pool.c:409-442 | along a run: a call submitted with a task, whatever it has been through, at its next section enqueues and accepts exactly that task if there is room, sleeps on if there is none, and gives up after the shutdown |
| `ThreadPoolCalls.TaskStays` | util/thread_pool/thread_pool.c:418-421 | no step changes the task of a call that is under way |
| `ThreadPoolCalls.WhoChangesHistory` | util/thread_pool/thread_pool.c:265-285 | only a producer's section accepts, only a worker's starts, only the end of a task finishes |
| `ThreadPoolCalls.SectionWakes` | util/thread_pool/thread_pool.c:436-440 | a producer's section wakes the workers its signal reaches, only if it has enqueued, and touches no other field |
| `ThreadPoolCalls.WorkerGoes` | util/thread_pool/thread_pool.c:235-272 | when a worker sleeps, leaves, or takes the first task: an exit request counts when there are tasks, at a shutdown, or after a wait |
| `ThreadPoolCalls.TakingReleases` | util/thread_pool/thread_pool.c:271-271 | taking a task releases the producers that the signal reaches, each with its own task, and no others |
| `ThreadPoolCalls.FinishGoes` | util/thread_pool/thread_pool.c:282-285 | a worker that has finished goes back to the top of its loop, and nobody else notices |
| `ThreadPoolCalls.PollGoes` | util/thread_pool/thread_pool.c:149-161 | SIGQUIT sets the flag, nothing clears it, and a tick follows |
| `ThreadPoolCalls.TickGoes` | util/thread_pool/thread_pool.c:163-169 | the control thread leaves exactly at a tick of the shutdown that finds no worker, which changes nothing else |
| `ThreadPoolCalls.TickExpands` | util/thread_pool/thread_pool.c:73-82 | a high load adds five threads, or as many as the maximum leaves |
| `ThreadPoolCalls.TickShrinks` | util/thread_pool/thread_pool.c:100-114 | a low load asks for the least number of exits that leaves at most twice the busy threads, or the minimum |
| `ThreadPoolCalls.TickRests` | util/thread_pool/thread_pool.c:172-201 | a load in between changes nothing of this |
| `ThreadPoolCalls.TickWakes` | util/thread_pool/thread_pool.c:210-213 | a tick wakes all sleeping workers if exits are requested after it, and none otherwise |
| `ThreadPoolCalls.TickReleases` | util/thread_pool/thread_pool.c:204-208 | a tick releases all sleeping producers, each with its task, during a shutdown with workers left, and none otherwise |
| `ThreadPoolCalls.LoadThresholds` | util/thread_pool/thread_pool.c:57-97 | high is more than 0.7 of the live threads busy, low less than 0.3, neither without threads |
| `ThreadPoolCalls.WhoCanMove` | util/thread_pool/thread_pool.c:225-289 | every worker that is not asleep can step, with every outcome of the signal; a sleeper only wakes |
| `ThreadPoolCalls.WhoCanCall` | util/thread_pool/thread_pool.c:409-442 | the same for calls; a signal reaches any sleepers, but never none while there are some |
| `ThreadPoolCalls.ControlCanMove` | util/thread_pool/thread_pool.c:145-216 | the control thread always has its next step until it has left |
| `ThreadPoolShutdown.ShutdownFreezes` | util/thread_pool/thread_pool.c:418-426 | once shutdown is set it stays; from then on no task is enqueued or dequeued and no worker is created |
| `ThreadPoolShutdown.SuccessMeansAcceptedIff` | util/thread_pool/thread_pool.c:418-441 | a call that answers success has put its task behind the accepted ones if and only if the flag was not set; else the task is dropped |
| `ThreadPoolShutdown.NobodySleepsAfterDrain` | util/thread_pool/thread_pool.c:203-213 | after the first tick that runs the shutdown branch nobody ever sleeps on either condition again, and the requested exits equal the threads that are left |
| `ThreadPoolShutdown.NothingRunsAfterControlLeaves` | util/thread_pool/thread_pool.c:163-169 | when the control thread has left, no worker is live and every started task is finished |
| `ThreadPoolShutdown.ReleasedAtExitIff` | util/thread_pool/thread_pool.c:163-208 | when the control thread has left, no producer sleeps if and only if a tick after the shutdown still found a worker, or every producer asleep at the shutdown has woken up by itself since |
| `ThreadPoolShutdown.DrainedIff` | util/thread_pool/thread_pool.c:203-208 | the shutdown branch has run if and only if some tick found the flag set and a worker left |
| `ThreadPoolShutdown.SleepersWithoutDrain` | util/thread_pool/thread_pool.c:245-262 | until then the producers asleep are exactly those that slept at the shutdown and have not woken up by themselves: nobody is signalled, nobody new falls asleep |
| `ThreadPoolShutdown.StrandedForEver` | util/thread_pool/thread_pool.c:163-169 | a producer asleep after the control thread has left sleeps for the rest of the run, unless it wakes up spuriously |
| `ThreadPoolShutdown.WorkLeftStep` | util/thread_pool/thread_pool.c:245-285 | after the shutdown every worker step lowers live plus busy threads by exactly one, and no other step changes them |
| `ThreadPoolShutdown.WorkerStepsCounted` | util/thread_pool/thread_pool.c:245-285 | so along a run that sum goes down by the number of worker steps, which bounds them |
| `ThreadPoolShutdown.ShutdownNotStuck` | util/thread_pool/thread_pool.c:163-213 | once the shutdown branch has run, a worker can step for exactly as long as the control thread may not leave |
| `ThreadPoolTheorems.MinimumKeptIff` | util/thread_pool/thread_pool.c:193-199 | of all steps, exactly those shrinks break the minimum |
| `ThreadPoolTheorems.MinimumKept` | util/thread_pool/thread_pool.c:245-257 | a run without such shrinks never goes below the minimum before shutdown |
| `ThreadPoolTheorems.MinimumKeptWithoutPendingExits` | util/thread_pool/thread_pool.c:100-114 | in particular when every shrink is decided with no exit pending |
| `ThreadPoolTheorems.ShrinkAimsAtHalfIff` | util/thread_pool/thread_pool.c:100-114 | a shrink leaves, after all requested exits, twice as many threads as are busy if and only if the exits pending before it are exactly what the minimum exceeds that by (none, if it does not) |
| `ThreadPoolWakeups.NoProducerWakeupLost` | util/thread_pool/thread_pool.c:265-272 | in every run before shutdown, if a producer sleeps on `queue_not_full` the free places are at most the producers already woken |
| `ThreadPoolWakeups.StepKeepsReleases` | util/thread_pool/thread_pool.c:416-441 | the step form: every critical section and every spurious wakeup keeps this |
| `ThreadPoolWakeups.WorkerTurnWakeups` | util/thread_pool/thread_pool.c:232-272 | a worker's critical section keeps "if a worker sleeps, the queue is covered by woken workers" if and only if it is not a woken worker that leaves while its wakeup was needed |
| `ThreadPoolWakeups.WakeupKeptIff` | util/thread_pool/thread_pool.c:232-272 | of all steps, exactly that kind of exit loses a worker's wakeup |
| `ThreadPoolWakeups.NoWorkerWakeupLost` | util/thread_pool/thread_pool.c:428-438 | a run without such exits never leaves a queued task uncovered while a worker sleeps |
| `ThreadPoolWakeups.NoWorkerWakeupLostWithoutExits` | util/thread_pool/thread_pool.c:173-191 | in particular when no exit is ever requested |
| `ThreadPoolWakeups.NotStuck` | util/thread_pool/thread_pool.c:235-243 | both wakeup properties together: with a worker left, a queued task or a sleeping producer implies that a worker or a released producer is awake |
| `ThreadPoolWakeups.NeverStuck` | util/thread_pool/thread_pool.c:232-289 | so a run without the exits and shrinks named above is never stuck before shutdown while there is work |
| `ThreadPoolWakeups.NeverStuckWithoutExits` | util/thread_pool/thread_pool.c:232-289 | in particular when no exit is ever requested |
| `ThreadPoolAccounting.RunInvariant` | util/thread_pool/thread_pool.c:132-289 | every pool of every run satisfies the joint invariant of limits, slots, tasks, running jobs and shutdown |
| `ThreadPoolAccounting.InitHolds` | util/thread_pool/thread_pool.c:312-358 | the pool that thread_pool_init leaves satisfies it |
| `ThreadPoolAccounting.StepKeeps` | util/thread_pool/thread_pool.c:132-289 | every step keeps it |
| `ThreadPoolAccounting.LeavePoolKeeps` | util/thread_pool/thread_pool.c:245-262 | a worker that leaves finds its slot, and neither counter underflows |
| `ThreadPoolAccounting.GrowKeeps` | util/thread_pool/thread_pool.c:178-191 | the expansion loop finds an unused slot each time, counts every new thread, and changes nothing else |
| `ThreadPoolWitnesses.ProducerStranded` | util/thread_pool/thread_pool.c:164-168 | a reachable pool whose control thread has left while a producer sleeps |
| `ThreadPoolWitnesses.SuccessForDroppedTask` | util/thread_pool/thread_pool.c:423-426 | a reachable pool in which a call answers success and drops its task |
| `ThreadPoolWitnesses.WakeupLostByExits` | util/thread_pool/thread_pool.c:239-262 | a reachable pool with a queued task, a sleeping worker, no woken one and no exit pending |
| `ThreadPoolWitnesses.PoolEmptied` | util/thread_pool/thread_pool.c:198-198 | a reachable pool, not shut down, with no worker at all |
| `ThreadPoolWitnesses.EmptyPoolStaysDead` | util/thread_pool/thread_pool.c:57-70 | a pool without workers never creates one and never starts a task again, whatever the rest of the run |
| `ThreadPoolWitnesses.ShrinkMissesHalf` | util/thread_pool/thread_pool.c:193-199 | a reachable pool with no busy thread whose shrink asks for more exits than there are threads |
| `TidList.IndexOf` | util/thread_pool/thread_pool.c:27-40 | the first slot holding the identifier; -1 exactly when there is none |
| `ThreadPool.ThreadPool.constructor` | util/thread_pool/thread_pool.c:291-363 | leaves an initial state of the protocol, with the first workers in the first slots |
| `ThreadPool.ThreadPool.CreateFirstWorkers` | util/thread_pool/thread_pool.c:351-358 | the creation loop fills the first slots, counts them and starts those workers |
| `ThreadPool.ThreadPool.FindTidIdx` | util/thread_pool/thread_pool.c:27-40 | the loop answers the first slot of the identifier, -1 when there is none |
| `ThreadPool.ThreadPool.GetUnusedTidIdx` | util/thread_pool/thread_pool.c:42-55 | the loop answers the first unused slot, -1 when there is none |
| `ThreadPool.ThreadPool.AddTaskSection` | util/thread_pool/thread_pool.c:416-441 | blocks, gives up or enqueues and signals exactly as the producer step, and answers success exactly when it does not block |
| `ThreadPool.ThreadPool.WorkerTurnSection` | util/thread_pool/thread_pool.c:233-272 | sleeps, leaves or takes a task exactly as the worker step |
| `ThreadPool.ThreadPool.LeaveSection` | util/thread_pool/thread_pool.c:245-262 | the exit branch is the leaving step |
| `ThreadPool.ThreadPool.TakeTaskSection` | util/thread_pool/thread_pool.c:265-272 | dequeue, count and signal are the task-taking step |
| `ThreadPool.ThreadPool.FinishSection` | util/thread_pool/thread_pool.c:282-285 | the end of a task is the finishing step |
| `ThreadPool.ThreadPool.PollSection` | util/thread_pool/thread_pool.c:149-161 | a pending SIGQUIT sets the flag and changes nothing else |
| `ThreadPool.ThreadPool.CreateSection` | util/thread_pool/thread_pool.c:179-190 | one turn of the expansion loop is one creation of the specification |
| `ThreadPool.ThreadPool.ExpandSection` | util/thread_pool/thread_pool.c:173-192 | the expansion loop is the specification's growth by min(5, max - cur) threads |
| `ThreadPool.ThreadPool.ShrinkSection` | util/thread_pool/thread_pool.c:193-200 | adds the shrink strategy's number of exits and nothing else |
| `ThreadPool.ThreadPool.ResizeSection` | util/thread_pool/thread_pool.c:171-201 | the resizing part of a tick, which a shutdown switches off |
| `ThreadPool.ThreadPool.BroadcastSection` | util/thread_pool/thread_pool.c:203-215 | the two broadcasts of a tick |
| `ThreadPool.ThreadPool.TickSection` | util/thread_pool/thread_pool.c:163-215 | a control tick is the tick step, or the control thread's exit |
| `ThreadPool.ThreadPool.Perform` | util/thread_pool/thread_pool.c:132-289 | every step of the protocol is what the program does, so all theorems about runs hold of it |
| `RingQueue.Queue.Initialize` | util/queue/queue.c:13-32 | refuses size 0 and leaves the queue alone; otherwise the queue is empty with that capacity |
| `RingQueue.Queue.IsNotFull` | util/queue/queue.c:72-79 | true exactly when there are fewer elements than the capacity |
| `RingQueue.Queue.IsEmpty` | util/queue/queue.c:81-88 | true exactly when the contents are empty |
| `RingQueue.Queue.Enqueue` | util/queue/queue.c:90-105 | appends, or refuses exactly when full and changes nothing |
| `RingQueue.Queue.Dequeue` | util/queue/queue.c:107-122 | takes the first element, or refuses exactly when empty |
| `CondChannel.NoWakeupLost` | thread/cond.c:24-76 | in every run, if a consumer sleeps then woken consumers cover the whole list |
| `CondChannel.StepKeepsWakeups` | thread/cond.c:36-67 | every critical section and spurious wakeup keeps this, with no condition |
| `CondChannel.ProductsConserved` | thread/cond.c:24-76 | in every run each product is in the list or has been consumed, once, and the list is newest first |
| `CondChannel.TakesTheNewest` | thread/cond.c:63-67 | a consumer takes the newest product that is left |
| `CondChannel.ProducedIsMade` | thread/cond.c:33-41 | in every run each product has the number that its producer made |
| `CondChannel.ProduceGoes` | thread/cond.c:36-44 | producing puts the product on top and wakes exactly whom the signal reaches |
| `CondChannel.ConsumerGoes` | thread/cond.c:57-67 | a consumer sleeps exactly if the list is empty, also when it has been woken; else it takes the top product |
| `CondChannel.WhoCanMove` | thread/cond.c:43-61 | consumers have their turn exactly while awake; a signal never reaches nobody while somebody sleeps |
| `CondChannel.LinkedChannel.ProducerSection` | thread/cond.c:36-44 | pushing a linked node and signalling is the producer step |
| `CondChannel.LinkedChannel.ConsumerSection` | thread/cond.c:57-67 | waiting or unlinking the head is the consumer step, and the number read is that product's |
| `SemaphoreMutex.MutualExclusion` | process_func/IPC/POSIX_SEMAPHORE/semaphore_mutex.c:62-98 | under every interleaving of statements, also of unlocks by others, semaphore value plus acquisitions not yet posted is 1 and at most one thread is inside |
| `SemaphoreMutex.StepKeeps` | process_func/IPC/POSIX_SEMAPHORE/semaphore_mutex.c:69-97 | each statement keeps the count, the place of each holder, and that the owner field names a holder or one that is about to clear it |
| `SemaphoreMutex.RunInvariant` | process_func/IPC/POSIX_SEMAPHORE/semaphore_mutex.c:31-98 | this holds in every run from the initialised mutex |
| `SemaphoreMutex.OnlyTheHolderPosts` | process_func/IPC/POSIX_SEMAPHORE/semaphore_mutex.c:80-97 | an unlock by a thread that does not hold the mutex changes neither semaphore nor owner and does not reach the post |
| `SemaphoreMutex.LockAlone` | process_func/IPC/POSIX_SEMAPHORE/semaphore_mutex.c:62-71 | on a free mutex lock returns after its two statements with its caller inside as the owner |
| `SemaphoreMutex.LockWaits` | process_func/IPC/POSIX_SEMAPHORE/semaphore_mutex.c:69-69 | a taken mutex stops lock at its wait |
| `SemaphoreMutex.UnlockAlone` | process_func/IPC/POSIX_SEMAPHORE/semaphore_mutex.c:80-98 | undisturbed, the owner's unlock makes four statements and returns; the mutex is free, has no owner, and the caller is outside and holds nothing |
| `SemaphoreMutex.UnlockOfFree` | process_func/IPC/POSIX_SEMAPHORE/semaphore_mutex.c:86-89 | anybody's unlock of a free mutex returns after its first statement and has changed nothing |
| `SemaphoreMutex.UnlockByStranger` | process_func/IPC/POSIX_SEMAPHORE/semaphore_mutex.c:91-94 | a stranger's unlock of a taken mutex returns after its second statement and has changed nothing |
| `SemaphoreMutex.OnlyLockWaits` | process_func/IPC/POSIX_SEMAPHORE/semaphore_mutex.c:62-98 | only a call of lock brings a thread to the wait; no unlock ends there |
| `SemaphoreMutex.OthersStandStill` | process_func/IPC/POSIX_SEMAPHORE/semaphore_mutex.c:62-98 | a step moves its own thread only, and calling changes neither semaphore nor owner |
| `SemaphoreMutex.SecureUntilPosted` | process_func/IPC/POSIX_SEMAPHORE/semaphore_mutex.c:80-97 | while nobody is about to clear the owner field, the holder stays owner until its own post, and its owner check passes |
| `SemaphoreMutex.SpoiledIff` | process_func/IPC/POSIX_SEMAPHORE/semaphore_mutex.c:96-97 | another thread can make the owner's unlock fail if and only if one stands between its post and `lwp = 0` |
| `SemaphoreMutex.DeadForEver` | process_func/IPC/POSIX_SEMAPHORE/semaphore_mutex.c:91-94 | once the owner field no longer names the thread inside, the mutex stays locked for the rest of every run |
| `SemaphoreMutex.UnlockFailsSilently` | process_func/IPC/POSIX_SEMAPHORE/semaphore_mutex.c:86-97 | a reachable mutex whose holder's unlock has returned without unlocking, and which stays locked for ever |
| `SemaphoreMutex.StepHolders` | process_func/IPC/POSIX_SEMAPHORE/semaphore_mutex.c:62-98 | a step that lowers the semaphore goes from no holder to its thread alone, one that raises it goes from its thread alone to none, and no other step changes the holders |
| `SemaphoreMutex.SemMutex.LockStatement` | process_func/IPC/POSIX_SEMAPHORE/semaphore_mutex.c:69-70 | whoever passes the wait found no holder and is then the only one; the owner field follows; the invariant is kept |
| `SemaphoreMutex.SemMutex.UnlockStatement` | process_func/IPC/POSIX_SEMAPHORE/semaphore_mutex.c:80-97 | a thread that is no holder neither changes the semaphore nor reaches the post; a post goes from its thread as the only holder to none; the invariant is kept |
| `SemaphoreMutex.SemMutex.Perform` | process_func/IPC/POSIX_SEMAPHORE/semaphore_mutex.c:62-98 | every call and statement of every thread is one step of the protocol, and the semaphore and its holders together stay one |
| `BoundedBuffer.StepKeeps` | process_func/IPC/POSIX_SEMAPHORE/anonymous_semaphore.c:204-235 | each statement keeps: space + product + processes between wait and post is the capacity, and the queue holds product + the processes between its side's wait and post |
| `BoundedBuffer.RunInvariant` | process_func/IPC/POSIX_SEMAPHORE/anonymous_semaphore.c:173-186 | this holds in every run, for any number of producers and consumers |
| `BoundedBuffer.NeverRefused` | process_func/IPC/POSIX_SEMAPHORE/anonymous_semaphore.c:86-106 | queue_add never finds the queue full and queue_pop never finds it empty |
| `BoundedBuffer.PoppedIsPrefixOfAdded` | process_func/IPC/POSIX_SEMAPHORE/anonymous_semaphore.c:79-113 | popped elements followed by the queue are the added elements, in order |
| `BoundedBuffer.SomebodyCanRun` | process_func/IPC/POSIX_SEMAPHORE/anonymous_semaphore.c:215-233 | with a producer and a consumer at their waits, some process can move |
| `BoundedBuffer.SomebodyBetween` | process_func/IPC/POSIX_SEMAPHORE/anonymous_semaphore.c:215-233 | when both semaphores are 0 some process is between its wait and its post |
| `BoundedBuffer.ProducerAlone` | process_func/IPC/POSIX_SEMAPHORE/anonymous_semaphore.c:214-218 | with a free place, an undisturbed producer adds its own element and leaves one place less and one product more |
| `BoundedBuffer.ConsumerAlone` | process_func/IPC/POSIX_SEMAPHORE/anonymous_semaphore.c:230-233 | with a product, an undisturbed consumer pops the oldest element and leaves one product less and one place more |
| `BoundedBuffer.StatementsInOrder` | process_func/IPC/POSIX_SEMAPHORE/anonymous_semaphore.c:204-235 | wait, queue call, post, for both kinds of process, with the element each joined with |
| `BoundedBuffer.OthersStandStill` | process_func/IPC/POSIX_SEMAPHORE/anonymous_semaphore.c:204-235 | a process keeps its place and its element until its own next statement |
| `BufferRace.StepRefines` | process_func/IPC/POSIX_SEMAPHORE/anonymous_semaphore.c:79-113 | with both calls split into their loads and stores: a step that does not make two calls overlap is a step of the atomic protocol, or invisible there |
| `BufferRace.SerialRunRefines` | process_func/IPC/POSIX_SEMAPHORE/anonymous_semaphore.c:204-235 | a run whose calls never overlap is, step by step, a run of the atomic protocol |
| `BufferRace.SerialRunsAreSafe` | process_func/IPC/POSIX_SEMAPHORE/anonymous_semaphore.c:79-113 | in such runs no call is refused, what is popped is what was added, in order, and between calls the ring holds exactly the rest |
| `BufferRace.RefusedGoesOn` | process_func/IPC/POSIX_SEMAPHORE/anonymous_semaphore.c:86-106 | a refused call leaves the ring alone and still goes on to its post |
| `BufferRace.SizeRightIff` | process_func/IPC/POSIX_SEMAPHORE/anonymous_semaphore.c:93-112 | in all runs, a step keeps `size` at the number of elements added and not popped if and only if it does not store a size that has changed since it was loaded |
| `BufferRace.ContentRightIff` | process_func/IPC/POSIX_SEMAPHORE/anonymous_semaphore.c:91-111 | in all runs, a step keeps the ring and its indices at the elements placed and not taken, in order, if and only if it is no copy or index store that another process has come in between of |
| `BufferRace.SpoiledIff` | process_func/IPC/POSIX_SEMAPHORE/anonymous_semaphore.c:79-113 | both together |
| `BufferRace.RingStaysRight` | process_func/IPC/POSIX_SEMAPHORE/anonymous_semaphore.c:79-113 | runs without such steps keep both, whether calls overlap or not |
| `BufferRaceWitness.SizeCorrupted` | process_func/IPC/POSIX_SEMAPHORE/anonymous_semaphore.c:91-93 | a run in which two producers overlap and the size is 1 with two elements in the ring |
| `BufferRaceWitness.OverlappingCallsLoseAnElement` | process_func/IPC/POSIX_SEMAPHORE/anonymous_semaphore.c:103-112 | it goes on until a consumer that has waited for its element is refused, and one of two elements is left behind |
| `BoundedBuffer.SharedQueue.GetFreeSpace` | process_func/IPC/POSIX_SEMAPHORE/anonymous_semaphore.c:69-77 | capacity minus the number of elements |
| `BoundedBuffer.SharedQueue.Add` | process_func/IPC/POSIX_SEMAPHORE/anonymous_semaphore.c:79-94 | appends across the wrap-around, or refuses exactly when full |
| `BoundedBuffer.SharedQueue.Pop` | process_func/IPC/POSIX_SEMAPHORE/anonymous_semaphore.c:96-113 | takes the oldest across the wrap-around, or refuses exactly when empty |
| `BoundedBuffer.SharedMemory.ProducerStatement` | process_func/IPC/POSIX_SEMAPHORE/anonymous_semaphore.c:215-218 | each statement of the producer is one step |
| `BoundedBuffer.SharedMemory.ConsumerStatement` | process_func/IPC/POSIX_SEMAPHORE/anonymous_semaphore.c:230-233 | each statement of the consumer is one step |
| `StableMerge.Merge` | thread/barrier.c:68-94 | on sorted chunks the loop fills `snums` with the stable sort of `nums`, for every number and size of chunks; the `minTid < 0` exit is not reached |
| `StableMerge.SelectChunk` | thread/barrier.c:77-84 | the inner loop finds the lowest chunk with the smallest head, or -1 exactly when all chunks are exhausted |
| `StableMerge.MergeStep` | thread/barrier.c:91-92 | the positions taken so far stay strictly increasing and stand before everything that remains |
| `StableMerge.SomethingRemains` | thread/barrier.c:86-89 | while the output is not full some chunk is not exhausted |
| `StableMerge.StableSortCorrect` | thread/barrier.c:68-94 | the reference sort is sorted, a permutation, and keeps the order of equal values |
| `StableMerge.StableOrderUnique` | thread/barrier.c:68-94 | there is only one order of all positions that increases in value and then position |
| `StableMerge.StableOrderIsStableSort` | thread/barrier.c:68-94 | any such order is the reference stable sort |
| `ParallelSort.MergeStartsAfterSorting` | thread/barrier.c:106-117 | in every run merge starts only after every chunk is sorted and every thread has arrived |
| `ParallelSort.NobodyPassesEarly` | thread/barrier.c:62-64 | nobody is behind the barrier, neither a sorter nor the main thread, before every sorter has arrived |
| `ParallelSort.NeverStuck` | thread/barrier.c:106-117 | in every run somebody can go on until the main thread has merged |
| `ParallelSort.OutputIsSorted` | thread/barrier.c:56-117 | in every run the result is the sorted permutation of the original array; merging itself promises this only for sorted chunks, so it rests on the barrier |
| `ParallelSort.OpenMeansAllArrived` | thread/barrier.c:107-115 | the barrier opens only when every sorter has arrived |
| `ParallelSort.AllChunksSorted` | thread/barrier.c:59-63 | behind an open barrier all chunks are sorted |
| `ParallelSort.QsortKeeps` | thread/barrier.c:59-59 | sorting one chunk changes no other and keeps the array a permutation |
| `ParallelSort.StepKeeps` | thread/barrier.c:56-117 | every step keeps the invariant of array, threads and barrier |
| `ParallelSort.RunInvariant` | thread/barrier.c:56-117 | it holds in every run |
| `SelectServer.EveryRoundIsExact` | internet/echo_server_tcp_udp_select.c:327-375 | in every run each round handles every ready descriptor once and nothing else, never the one it has just accepted; the tables agree, and the open sockets are exactly the listeners and the table's entries |
| `SelectServer.EachReadyOnce` | internet/echo_server_tcp_udp_select.c:339-373 | listener, connections, datagram socket: together each ready descriptor once, so as many as select counted |
| `SelectServer.RoundEnds` | internet/echo_server_tcp_udp_select.c:254-271 | a connection is open, in the set and in the table after a round unless it was ready and its end of stream or reset was read |
| `SelectServer.RoundAccepts` | internet/echo_server_tcp_udp_select.c:211-236 | a new connection is kept, in all three places, exactly if the listener was ready and one of the 1024 entries was free; `max_fd` grows to it and no further |
| `SelectServer.RoundEntries` | internet/echo_server_tcp_udp_select.c:218-243 | no connection changes its entry, and the only entry a round fills is the first free one |
| `SelectServer.RoundScans` | internet/echo_server_tcp_udp_select.c:231-233 | `max_idx` never shrinks, and grows only to the entry of a new connection when all before it are taken |
| `SelectServer.ListenersAtTheEnds` | internet/echo_server_tcp_udp_select.c:339-373 | the listener is handled first and the datagram socket last |
| `SelectServer.ConnectionsInOrder` | internet/echo_server_tcp_udp_select.c:351-361 | connections are handled in the order of their entries |
| `SelectServer.ScanToMaxIdx` | internet/echo_server_tcp_udp_select.c:351-361 | stopping at `max_idx` misses no ready connection |
| `SelectServer.NewConnectionNotRead` | internet/echo_server_tcp_udp_select.c:340-361 | a connection accepted in this round is not read in it, also when it takes a slot below `max_idx` |
| `SelectServer.ConnectKeeps` | internet/echo_server_tcp_udp_select.c:211-236 | accepting keeps: the set is the listeners plus the distinct table entries, all within `max_idx` and `max_fd`, and exactly these sockets are open; with a full table the new socket is closed again |
| `SelectServer.DisconnectKeeps` | internet/echo_server_tcp_udp_select.c:238-249 | closing connections keeps it |
| `SelectServer.RoundKeeps` | internet/echo_server_tcp_udp_select.c:327-375 | a whole round keeps it |
| `SelectServer.Server.constructor` | internet/echo_server_tcp_udp_select.c:300-323 | start-up establishes it with an empty table |
| `SelectServer.Server.AddToFdSet` | internet/echo_server_tcp_udp_select.c:198-204 | the descriptor is added and `max_fd` covers it |
| `SelectServer.Server.HandlerTcpNewConnect` | internet/echo_server_tcp_udp_select.c:211-236 | the loop takes the first free slot, or closes the new socket when there is none |
| `SelectServer.Server.CloseTcpConnect` | internet/echo_server_tcp_udp_select.c:238-249 | closes the socket and frees its only entry and its bit, and no other |
| `SelectServer.Server.HandlerTcpRead` | internet/echo_server_tcp_udp_select.c:251-272 | closes at end of stream and on reset; otherwise keeps the table and writes back as much of the data as one write takes |
| `SelectServer.EchoedInFullIff` | internet/echo_server_tcp_udp_select.c:268-271 | a connection that is read gets back the first of its bytes, as many as one write takes, so all if and only if it takes them all; others get nothing |
| `SelectServer.Server.ReadConnections` | internet/echo_server_tcp_udp_select.c:349-363 | the loop reads exactly the ready table entries in order, counts each down, drops those that closed, and echoes to each its own data |
| `SelectServer.Server.AcceptReady` | internet/echo_server_tcp_udp_select.c:339-343 | the listener is handled exactly when it is ready, and counted |
| `SelectServer.Server.ServeRest` | internet/echo_server_tcp_udp_select.c:345-373 | the connections and the datagram socket use up the count that is left; an early `continue` skips nothing |
| `SelectServer.Server.ServeRound` | internet/echo_server_tcp_udp_select.c:329-373 | the count ends at 0 with every ready descriptor handled in order, whichever `continue` is taken |
| `StreamIO.ReadCount` | internet/wrap/wrap.c:120-151 | for every fragmentation and retry: exactly the requested bytes, or all there are at end of stream, and nothing behind them in the buffer changes |
| `StreamIO.WriteCount` | internet/wrap/wrap.c:201-233 | writes a prefix of the buffer, and all of it unless some write returned 0 |
| `StreamIO.ReadLine` | internet/wrap/wrap.c:157-197 | the next line with its newline, or the rest of the stream; -1 exactly when no newline comes within `size` bytes, which are then lost |
| `StreamIO.LineLength` | internet/wrap/wrap.c:189-192 | the length up to the first newline inclusive, or of everything |
| `LineEcho.PiecesRebuildIff` | internet/echo_server.c:12-20 | the lines read concatenate to the stream if and only if every line fits the buffer; otherwise to a prefix |
| `LineEcho.PiecesAreLines` | internet/wrap/wrap.c:157-197 | every piece is not empty, fits, and ends in its only newline, but the last one may lack it |
| `LineEcho.EchoOne` | internet/echo_server.c:15-19 | one turn echoes one line; it stops exactly at end of stream or at a line that is too long |
| `LineEcho.EchoLines` | internet/echo_server.c:12-20 | the server writes back exactly these lines, under every fragmentation |
| `Framing.RoundTrip` | internet/test_struct_server.c:19-85 | for every list of messages the server recovers exactly their types and bodies, without the empty ones, and ends at end of stream |
| `Framing.ParseFrame` | internet/test_struct_server.c:19-56 | one frame in front of any stream is one request, or none when its body is empty |
| `Framing.FrameLayout` | internet/test_struct.h:11-14 | type in byte 0, length in bytes 4 to 7 with the least significant first, body from byte 8 on |
| `Framing.TurnOnAnyStream` | internet/test_struct_server.c:19-56 | on any bytes: which header stops the server and how, which message is passed over, and which request is read |
| `Framing.NoEmptyRequests` | internet/test_struct_server.c:40-42 | on any bytes no request with an empty body or another type is ever handled |
| `Framing.EchoAdds` | internet/test_struct_server.c:58-59 | an ECHO request adds its body to what goes back, and runs no command |
| `Framing.CallAdds` | internet/test_struct_server.c:64-72 | the n-th request, if a CALL, adds the output of the n-th command, whose text is the body up to its first NUL |
| `Framing.EchoesAreBodies` | internet/test_struct_server.c:58-59 | requests that are all ECHO get exactly their bodies back, one behind the other |
| `Framing.CutStream` | internet/test_struct_server.c:19-56 | wherever the client's stream breaks off, the requests handled are a prefix of those sent, and no byte of a body is taken for a header |
| `Framing.TrimInput` | internet/test_struct_client.c:32-40 | the text without its trailing newline, and its length |
| `Framing.SendMessage` | internet/test_struct_client.c:70-71 | header and body reach the stream as one frame, however the writes are split |
| `Framing.SendEntry` | internet/test_struct_client.c:20-71 | an unknown number sends nothing; a line is sent without its newline as one frame |
| `Framing.SendAll` | internet/test_struct_client.c:65-71 | a session writes the frames of the messages that were typed, in order |
| `Framing.RequestsOfEntries` | internet/test_struct_client.c:20-42 | the i-th request has the type and the text that were typed i-th |
| `Framing.WhatIsTyped` | internet/test_struct_client.c:32-37 | a line loses its newline and nothing else |
| `Framing.UnknownLeavesNoTrace` | internet/test_struct_client.c:23-26 | an entry with an unknown number changes nothing of what is sent |
| `Framing.ReadMessage` | internet/test_struct_server.c:19-56 | header and body are read whole however the reads are split; each error and the end of the stream are told apart |
| `Framing.HandleRequest` | internet/test_struct_server.c:58-81 | an ECHO request writes back its body; a CALL request writes the output of the command, which is the body up to its first NUL |
| `Framing.DoReadWrite` | internet/test_struct_server.c:14-86 | the loop handles exactly the requests of the stream and writes back their replies, in order |
| `Framing.Exchange` | internet/test_struct_client.c:13-71 | client and server together: for every fragmentation of both ends the server handles exactly the texts that were typed, without newlines and empty ones, and replies to each |
| `Framing.EchoSession` | internet/test_struct_client.c:13-71 | a session of ECHO lines gets exactly its texts back, for every fragmentation |
| `UrlCodec.DecodeEncode` | useful_func/url_encode_decode.c:48-99 | decoding undoes encoding for every C string |
| `UrlCodec.EncodeDecodeIff` | useful_func/url_encode_decode.c:48-99 | encoding undoes decoding if and only if the text is canonical |
| `UrlCodec.EncodingShape` | useful_func/url_encode_decode.c:54-71 | an encoding has only letters, digits, `/`, `.` and upper-case triples, and at most three times the length |
| `UrlCodec.KeptIff` | useful_func/url_encode_decode.c:56-59 | a text is its own encoding if and only if all its characters are letters, digits, `/` or `.` |
| `UrlCodec.KeptCharacters` | useful_func/url_encode_decode.c:56-58 | the characters that are kept are the letters of both cases, the digits, `/` and `.` |
| `UrlCodec.DigitsOfBothCases` | useful_func/url_encode_decode.c:19-30 | digits of both cases decode alike, the first counting 16, also before the terminator |
| `UrlCodec.OnlyDigitsCount` | useful_func/url_encode_decode.c:26-29 | a character counts as -1 exactly if it is no hexadecimal digit |
| `UrlCodec.NoPercentNoChange` | useful_func/url_encode_decode.c:86-89 | decoding changes triples only; `+` stays `+` |
| `UrlCodec.DocumentedCharactersChange` | useful_func/url_encode_decode.c:8-59 | hyphen, asterisk and underscore become triples, although the comment says they are kept; the slash is kept |
| `UrlCodec.TripleRoundTrip` | useful_func/url_encode_decode.c:61-69 | the two digits of every other byte, also of a negative `char`, give the byte back |
| `UrlCodec.AppendEncoded` | useful_func/url_encode_decode.c:55-70 | one turn appends the character or its triple |
| `UrlCodec.UrlEncode` | useful_func/url_encode_decode.c:48-74 | the buffer ends up holding the encoding, as a C string |
| `UrlCodec.DecodeNext` | useful_func/url_encode_decode.c:86-95 | one turn decodes a character or a triple and stays within the text |
| `UrlCodec.UrlDecode` | useful_func/url_encode_decode.c:79-99 | the buffer ends up holding the decoding up to its first NUL, also when the text ends in `%` and one digit |
| `ReactorProofs.DispatchReachesItsConnection` | internet/epoll_reactor.c:177-180 | in every run each event of a batch meets the very connection that its slot had when the batch was made, live and registered, although earlier callbacks of the batch close and reuse slots and descriptors |
| `ReactorEcho.GenerationIsOneConnection` | internet/epoll_reactor.c:56-120 | along a run a generation of a slot is one connection: it is never resumed after it has ended, and keeps its descriptor and block |
| `ReactorProofs.EchoFidelity` | internet/epoll_reactor.c:256-338 | in every run the bytes written followed by those still in the buffer are the bytes of the completed read loops: output is a prefix of input, and all of it on return to reading; nothing read on a live connection is left out |
| `ReactorEcho.SettledIff` | internet/epoll_reactor.c:141-338 | from a slot in which every byte read has been written or is still in the buffer of a live connection, a step leaves it so if and only if it neither expires the connection with bytes in the buffer nor ends its stream after reading something |
| `ReactorEcho.ClosedEchoedIff` | internet/epoll_reactor.c:146-287 | when a connection ends, all it has sent has been written back if and only if its buffer was empty and its last read loop read nothing |
| `ReactorEcho.NothingIsLost` | internet/epoll_reactor.c:141-338 | in runs without those steps every byte read is written back, or is in the buffer of the live connection |
| `ReactorEcho.StepNode` | internet/epoll_reactor.c:141-338 | what a step can do to a slot: it expires, it ends with its stream, it stays, or it gets a new connection |
| `ReactorCallbacks.TimeoutKeepsIff` | internet/epoll_reactor.c:144-163 | the timeout loop keeps a connection, untouched, exactly if at most 60 seconds have passed since its last access |
| `ReactorCallbacks.LastAccessIsLastUse` | internet/epoll_reactor.c:66-69 | in every run the last access of a slot is the clock of its last callback, or of the accept that filled it |
| `ReactorCallbacks.ClosedAfterSilence` | internet/epoll_reactor.c:144-163 | so a connection is closed by a timeout exactly when none of its callbacks has run for more than 60 seconds |
| `ReactorCallbacks.AcceptOpens` | internet/epoll_reactor.c:228-254 | an accepted connection fills the first free slot, empty and in read mode, and no other; without a free slot nothing is accepted |
| `ReactorCallbacks.ReadTurnsToWrite` | internet/epoll_reactor.c:293-302 | a read loop that runs dry, even at once, hands its whole burst, from the start of the buffer, to the write callback |
| `ReactorCallbacks.ReadCloses` | internet/epoll_reactor.c:278-287 | a read loop that meets the end of the stream gives descriptor, registration and block back |
| `ReactorCallbacks.WriteTurnsToRead` | internet/epoll_reactor.c:306-338 | a write sends the next bytes, at most 40, and the connection is read again exactly after the last one |
| `ReactorCallbacks.OthersUntouched` | internet/epoll_reactor.c:177-180 | no callback touches another live connection |
| `ReactorCallbacks.WaitListsReady` | internet/epoll_reactor.c:165-175 | a batch has one event for each ready descriptor, in order |
| `ReactorCallbacks.EventCanBeServed` | internet/epoll_reactor.c:177-180 | every pending event can be served, whatever is accepted, read or written |
| `ReactorCallbacks.BurstConcat` | internet/epoll_reactor.c:265-291 | a burst is what its calls deliver, one behind the other |
| `ReactorCallbacks.Sizes` | internet/epoll_reactor.c:21-27 | 1024 slots and one for the listener, buffers of 32767 bytes, reads of at most 100 |
| `ReactorCallbacks.NoSocketLeaks` | internet/epoll_reactor.c:141-303 | in every run the open sockets are those from before the start and the registered ones, each with a live slot |
| `ReactorWitnesses.LastBytesAreDropped` | internet/epoll_reactor.c:278-287 | a run from start-up in which a client sends a byte and closes its end, and the byte is not sent back |
| `ReactorWitnesses.UnreadBytesExpire` | internet/epoll_reactor.c:146-163 | a run from start-up in which a byte has been read, the client takes nothing for 61 seconds, and the connection is closed with the byte in its buffer |
| `ReactorProofs.ResourcesAreDistinct` | internet/epoll_reactor.c:228-254 | live connections have different descriptors and address blocks |
| `ReactorProofs.NothingGoesWrong` | internet/epoll_reactor.c:86-139 | in every run no epoll_ctl call fails, no block is freed twice or used after its release, and registered descriptors are open |
| `ReactorProofs.MasksAgree` | internet/epoll_reactor.c:71-139 | callback, node mask and kernel mask of a connection always agree |
| `ReactorProofs.BlocksMatchConnections` | internet/epoll_reactor.c:244-294 | the live address blocks are exactly those of the active slots: no leak |
| `ReactorProofs.ListenerStays` | internet/epoll_reactor.c:352-356 | the listening slot is never allocated, closed or expired, and stays registered |
| `ReactorProofs.RunInvariant` | internet/epoll_reactor.c:141-184 | the joint invariant of slots, kernel, descriptors, blocks and pending events holds in every run |
| `ReactorProofs.StepKeeps` | internet/epoll_reactor.c:141-184 | timeouts, waits and dispatches keep it |
| `ReactorProtocol.FindUnuseNode` | internet/epoll_reactor.c:56-64 | the first unused client slot, or the number of slots when all are in use |
| `EpollReactor.EventTable.constructor` | internet/epoll_reactor.c:348-356 | start-up registers the listener in the last slot and leaves all client slots unused |
| `EpollReactor.EventTable.RunFindUnuseNode` | internet/epoll_reactor.c:56-64 | the loop finds the first unused slot |
| `EpollReactor.EventTable.RunEventAdd` | internet/epoll_reactor.c:86-104 | registration is the specification's |
| `EpollReactor.EventTable.RunEventDel` | internet/epoll_reactor.c:106-120 | removal is the specification's |
| `EpollReactor.EventTable.RunEventMod` | internet/epoll_reactor.c:122-139 | modification is the specification's |
| `EpollReactor.EventTable.RunClose` | internet/epoll_reactor.c:279-287 | block, registration and descriptor are released together |
| `EpollReactor.EventTable.RunAccept` | internet/epoll_reactor.c:228-254 | the accept callback is the accept step |
| `EpollReactor.EventTable.RunReads` | internet/epoll_reactor.c:262-292 | the loop stores the whole burst at the start of the buffer, whatever the sizes and interruptions of its reads |
| `EpollReactor.EventTable.RunReadLoop` | internet/epoll_reactor.c:256-303 | the read callback is the read step |
| `EpollReactor.EventTable.RunWrite` | internet/epoll_reactor.c:306-338 | the write callback is the write step |
| `EpollReactor.EventTable.RunTimeouts` | internet/epoll_reactor.c:144-163 | the timeout loop is the timeout step |
| `EpollReactor.EventTable.RunCallback` | internet/epoll_reactor.c:178-179 | the callback that the slot names is the one that runs |
| `EpollReactor.EventTable.RunDispatch` | internet/epoll_reactor.c:177-180 | calling through the slot's function pointer is the dispatch step |
| `EpollReactor.EventTable.Perform` | internet/epoll_reactor.c:141-184 | every turn of the loop is a step of the protocol and keeps the invariant; each pending event names a live node with the event's descriptor |

## Left out

- ThreadPool.ThreadPool.constructor: assumes arguments that thread_pool_init accepts (it exits the process on others) and a maximum for which `int byte_cnt` at line 344 does not overflow.
- ThreadPoolAccounting.RunInvariant: for more than a million threads the rounding of `act * 1.0 / cur` to a float is left open; the theorems hold for every rounding. The branch at line 430, where queue_enqueue fails, is not reachable because the same critical section has just seen room.
- ThreadPoolWakeups.NoWorkerWakeupLost: holds of runs without the exits that WakeupKeptIff names, because WakeupLostByExits shows that it fails with them.
- ThreadPoolTheorems.MinimumKept: holds of runs without the shrinks that MinimumKeptIff names, because PoolEmptied shows that it fails with them.
- BoundedBuffer.StepKeeps: takes queue_add and queue_pop as atomic steps, which the code does not make them; BufferRace says when its runs are such runs. sem_wait is not interrupted by signals.
- BoundedBuffer.RunInvariant: the same.
- BoundedBuffer.NeverRefused: the same; false of overlapping calls, as OverlappingCallsLoseAnElement shows.
- BoundedBuffer.PoppedIsPrefixOfAdded: the same.
- BufferRace.StepRefines: copying one element is one step, and memory is sequentially consistent.
- SemaphoreMutex.MutualExclusion: safety only. Progress fails, as UnlockFailsSilently shows; sem_wait is not interrupted by signals.
- ParallelSort.QsortKeeps: qsort is one step that returns a sorted permutation of its chunk, although the comparison never answers 0; the chunks divide the array evenly, as the constants do.
- SelectServer.RoundKeeps: descriptors are below FD_SETSIZE and a newly accepted descriptor is not in use.
- ReactorProofs.RunInvariant: a burst fits the buffer (the comment at line 27 demands it), a new connection gets a fresh descriptor and a fresh block, and a batch names each descriptor once. Each callback reads the clock once, the source reads it twice.
- StreamIO.ReadCount: streams carry finite scripts of interruptions; a call that is interrupted for ever does not return.
- StreamIO.WriteCount: does not promise that everything is written when a write returns 0, because the loop then gives up.
- Framing.DoReadWrite: a CALL command is any function of its text and its number; its output reaches the connection whole. Allocation never fails, also not for the largest length, for which `size + 1` overflows.
- Framing.SendAll: fgets splits longer lines by itself, so each line is below 1024 characters and without NUL. The client's reading of a reply between messages is not modelled; after an empty message, to which the server does not reply, it would wait for ever.
- ParallelSort.OutputIsSorted: merging is one step, with the contract that `StableMerge.Merge` is proved to meet.
- UrlCodec.UrlEncode: the encoding fits the work buffer and the caller's buffer; the source checks neither.
- UrlCodec.UrlDecode: every `%` is followed by a character, otherwise the source reads past the terminator; the decoding fits the work buffer, which the source does not check.
- Failed system calls, after which the source prints a message and exits the process.
- NULL-pointer checks, plain getters, logging, option parsing and address formatting.
- Task bodies and completion callbacks, which are opaque and end; thread_pool_destroy.
- Fairness and termination of whole runs: the theorems are about safety and about which steps are possible.
- `process_func/IPC/POSIX_SEMAPHORE/named_semaphore.c`, which repeats the bounded buffer with named semaphores.
- `thread/deadblock*.c`: the version meant as a solution can still block, so there is nothing to prove.
- `internet/poll.c`, `internet/aio_echo_server.c`, `thread/semaphore.c`: shared state without synchronisation; the protocols above cover the same ideas.
- `thread/mutex*.c`, `thread/rwlock.c`, `process_func/IPC/XSI_IPC/`, `useful_func/coroutine.c`: they would add only easy members.
- `libevent/`, `io_func/`, `link/`, `assembly/` and the rest: calls into libraries and the operating system.
