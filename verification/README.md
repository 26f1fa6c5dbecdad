# Verified models of the cpp_demos protocols

The repository is a collection of small C++ demonstrations. Several of them hold a real
protocol or an ownership discipline, and this project models those in Dafny and proves what
they are for, for any number of threads, handles, children, workers, files or operations:

- a bounded producer/consumer monitor with one broadcast and one signal condition;
- a batch consumer whose producer signals after it has unlocked;
- a reference-counted and an exclusive smart pointer;
- a lazily created singleton with double-checked locking;
- a forking server that reaps its children in a SIGCHLD handler;
- a parallel in-place map over disjoint ranges of an array;
- a fixed-block memory pool;
- a process pool that deals tasks out over pipes;
- a file sender that cuts files into messages, and the receiver that puts them together again.

## How it is built

`Runs.dfy` says what a run of a step machine is and proves, once, the three facts that all the
concurrent models use: what every step keeps every run keeps (`Preserved`); a potential that
falls with each step bounds the length of a run (`Amortised`); and a machine whose potential
falls can be driven until it stops (`Stops`). `Sums.dfy`, `Products.dfy` and `Distinct.dfy`
hold the counting, arithmetic and no-duplicates lemmas.

A concurrent program is a `State`, an `Event` for each thing that can happen next, and a
function `Next` that gives the state after an event, or `None` if the event is not enabled.
Each statement of the program that another thread could come in between is one event. Beside
it stands a class with the program's variables, whose methods change them in place; each method
is proved to be exactly one step of `Next`. A sequential program is a class whose methods
are proved to have the effect of one operation on a value, and the theorems are about
all sequences of these operations.

What a step function means is not left to its own text. The monitor is proved to show exactly
what a much simpler monitor shows, in which a whole call is one step (`MonitorIsAtomic`). For
the other machines, laws stated without the step function's branches say what a whole call, round
or life does and which events can happen: the paths of `get`, the rounds of the two tasks, the
coalescing of exits, the commuting steps of the workers, the life of an object, the order in
which a new pool hands out its blocks, what any message at all does to the receiver's files.

Threads run under sequential consistency. Waiting and signalling follow IEEE Std 1003.1,
System Interfaces, `pthread_cond_wait` and `pthread_cond_signal`: a wait releases the mutex
and sleeps in one step, a signal wakes at least one sleeper, a broadcast wakes all, and a
sleeper may wake up spuriously.

| file | models |
|---|---|
| `BoundedMonitor.dfy`, `MonitorProgress.dfy`, `MonitorRefinement.dfy`, `MonitorObject.dfy` | `producer_and_consumer/producerAndConsumer1.cpp` |
| `BatchCondition.dfy` | `pthread/pthread_condition.cpp` |
| `SharedOwnership.dfy`, `SharedPtrObjects.dfy` | `smart_ptr/shared_ptr.cpp` |
| `UniqueOwnership.dfy`, `UniquePtrObjects.dfy` | `smart_ptr/unique_ptr.cpp` |
| `LazySingleton.dfy` | `design_pattern/singleton/LazySingleton.cpp` |
| `Reaper.dfy` | `multi_process/3http_server.cpp` |
| `ParallelMap.dfy` | `pthread/pthread_join.cpp` |
| `MemoryPool.dfy` | `memory_pool/memory_pool1.cpp` |
| `ProcessPool.dfy` | `multi_process/2process_pool.cpp` |
| `FileFraming.dfy`, `FileTransfer.dfy` | `kcp_demos/src/kcp_wrapper.cpp`, `kcp_demos/src/receiver.cpp`, `kcp_demos/include/kcp_wrapper.h` |

`dafny verify dfyconfig.toml` checks everything.

## Where a promise holds only sometimes

- The monitor can come to rest with every thread asleep if and only if it has no slots, no
  producers or no consumers (`DeadlockIff`).
- Giving a raw pointer to a `UniquePtr` keeps ownership exclusive if and only if the pointer is
  null, belongs to no handle, or is the one the handle already holds (`SourceFitsIff`).
- The pool's constructor lays out usable blocks if and only if there are none, or the block size
  is positive and the total size does not wrap around `size_t` (`LayoutSoundIff`).
- A file name survives the transfer if and only if it has no NUL and at most 255 bytes
  (`NameSurvivesIff`), and all messages of a file fit the receive buffer if and only if the file
  has at most 65535 - 272 bytes (`FitsBufferIff`).
- The parallel map overflows no 32-bit `int` under any interleaving exactly when the sequential
  result does not (`NoOverflow`).

## Model

| member | source | states |
|---|---|---|
| BoundedMonitor.NextInv | producer_and_consumer/producerAndConsumer1.cpp:33-78 | Every step of every thread, spurious wakeups included, keeps the inductive invariant: one owner of the mutex, `index` within bounds, a passed or failed test still holds while the mutex is held, sleeping consumers only on an empty buffer or before a broadcast, sleeping producers only while every free slot is due to somebody. |
| MonitorProgress.NoLostWakeup | producer_and_consumer/producerAndConsumer1.cpp:39-50 | In every reachable state: mutual exclusion, bounds and conservation of `index`; and when the mutex is free, a sleeper on cond1 means the buffer is empty, a sleeper on cond2 means there are no more free slots than producers already woken. |
| MonitorProgress.DeadlockFree | producer_and_consumer/producerAndConsumer1.cpp:33-78 | With at least one slot, one producer and one consumer, in every reachable state some thread is awake and can take a step of its own. |
| MonitorProgress.DeadlockIff | producer_and_consumer/producerAndConsumer1.cpp:33-78 | A state with all threads asleep is reachable if and only if there are no slots, no producers or no consumers. |
| MonitorProgress.StuckIffAllAsleep | producer_and_consumer/producerAndConsumer1.cpp:39-74 | Nothing but a spurious wakeup can happen exactly when all threads sleep. |
| MonitorProgress.RankFalls | producer_and_consumer/producerAndConsumer1.cpp:39-74 | The sum of the threads' ranks strictly falls on every step that neither changes `index` nor is a spurious wakeup. |
| MonitorProgress.Throughput | producer_and_consumer/producerAndConsumer1.cpp:33-78 | The length of any stretch of any run is bounded, linearly in the number of threads, by its changes of `index` and its spurious wakeups. |
| MonitorProgress.Progress | producer_and_consumer/producerAndConsumer1.cpp:33-78 | Every stretch without spurious wakeups longer than 7 n + 1 steps changes `index`, and k changes happen within a length linear in n, the number of threads. |
| MonitorProgress.BothSidesProgress | producer_and_consumer/producerAndConsumer1.cpp:33-78 | Within such a length, m items are produced and m are consumed, under any schedule. |
| MonitorProgress.GoesOn | producer_and_consumer/producerAndConsumer1.cpp:33-78 | From every reachable state the monitor can go on for any number of steps without a spurious wakeup. |
| MonitorRefinement.MonitorIsAtomic | producer_and_consumer/producerAndConsumer1.cpp:33-78 | What callers can see whenever the mutex is free is exactly what a monitor can show in which every call is one indivisible step: produce and wake all consumers, consume and wake at least one producer, or fall asleep on a full or empty buffer. |
| MonitorRefinement.RunIsAtomic | producer_and_consumer/producerAndConsumer1.cpp:33-78 | Soundness: every run of the threads, however interleaved, shows a run of the atomic monitor. |
| MonitorRefinement.AtomicRunHappens | producer_and_consumer/producerAndConsumer1.cpp:33-78 | Completeness: every run of the atomic monitor is shown by some run of the threads that leaves the mutex free. |
| MonitorRefinement.StepHappens | producer_and_consumer/producerAndConsumer1.cpp:39-50 | A thread that finds the mutex free makes each atomic step by its own statements alone, gives the mutex back, ends at the start of its loop or asleep, and moves no other thread but those it wakes. |
| MonitorRefinement.UnlockFrees | producer_and_consumer/producerAndConsumer1.cpp:50-73 | After the last statement of a call the mutex is free, nothing else has changed, and any other thread that wants the mutex can have it next. |
| MonitorRefinement.FreeBetweenChanges | producer_and_consumer/producerAndConsumer1.cpp:46-73 | Between any two changes of `index` in any run there is a moment when nobody holds the mutex. |
| MonitorObject.Mydata.constructor | producer_and_consumer/producerAndConsumer1.cpp:21-26 | A new monitor with its threads is the initial state, and satisfies the invariant. |
| MonitorObject.Mydata.LockMutex | producer_and_consumer/producerAndConsumer1.cpp:39-42 | Locking, also at the end of a wait, is one step of the machine. |
| MonitorObject.Mydata.TestIndex | producer_and_consumer/producerAndConsumer1.cpp:40-64 | The test of the wait loop is one step. |
| MonitorObject.Mydata.StartWaiting | producer_and_consumer/producerAndConsumer1.cpp:42-66 | Waiting releases the mutex and sleeps in one step. |
| MonitorObject.Mydata.ChangeIndex | producer_and_consumer/producerAndConsumer1.cpp:46-69 | Changing `index` is one step. |
| MonitorObject.Mydata.NotifyOthers | producer_and_consumer/producerAndConsumer1.cpp:49-72 | The consumer's signal, or the producer's broadcast, is one step. |
| MonitorObject.Mydata.UnlockMutex | producer_and_consumer/producerAndConsumer1.cpp:50-73 | Unlocking is one step: it frees the mutex and takes the thread back to the start of its loop. |
| MonitorObject.Mydata.Execute | producer_and_consumer/producerAndConsumer1.cpp:82-113 | Threads interleaved along any possible schedule perform the corresponding run of the machine. |
| BatchCondition.NextInv | pthread/pthread_condition.cpp:25-52 | The invariant of the two tasks, with the window between unlock and signal, is inductive. |
| BatchCondition.NoLostWakeup | pthread/pthread_condition.cpp:27-47 | The consumer sleeps on a full batch only while `count` is exactly the batch and the producer lies between its increment and its signal; `count` plus batches taken equals the increments; `count` is never negative. |
| BatchCondition.RunsEndWithAllBatchesTaken | pthread/pthread_condition.cpp:25-52 | Runs are bounded by 11 N + 3 steps plus four per spurious wakeup; in a reachable quiescent state all N increments are made, N / B batches are taken and N % B is left. |
| BatchCondition.QuiescenceReachable | pthread/pthread_condition.cpp:25-52 | From every reachable state the tasks can go on to quiescence with that result. |
| BatchCondition.HundredByTen | pthread/pthread_condition.cpp:28-41 | With the program's numbers ten batches are taken and nothing is left. |
| BatchCondition.TakerRound | pthread/pthread_condition.cpp:27-34 | A round of the consumer that finds a batch takes exactly that and gives the mutex back. |
| BatchCondition.TakerDozes | pthread/pthread_condition.cpp:27-30 | A round that finds none ends asleep, without the mutex; only a wakeup, also a spurious one, makes it test again. |
| BatchCondition.CounterRound | pthread/pthread_condition.cpp:41-49 | A round of the producer adds one, frees the mutex, wakes a sleeping consumer, and goes on or ends after the last increment. |
| BatchCondition.CounterSignals | pthread/pthread_condition.cpp:47 | The signal wakes the consumer if it sleeps and otherwise does nothing, whoever holds the mutex. |
| BatchCondition.TakenBeforeTheSignal | pthread/pthread_condition.cpp:46-47 | Between unlock and signal the consumer may come in and take the batch just completed, with nothing lost. |
| BatchCondition.CountsAlone | pthread/pthread_condition.cpp:41-49 | From the start of the program the producer can make any number of its increments on its own. |
| BatchCondition.Excluded | pthread/pthread_condition.cpp:27-46 | While one task holds the mutex the other cannot enter, but for the signal; a free mutex is there for whoever wants it. |
| BatchCondition.Tasks.StepTask1 | pthread/pthread_condition.cpp:25-37 | One statement of the batch consumer on the shared variables is one step. |
| BatchCondition.Tasks.StepTask2 | pthread/pthread_condition.cpp:39-52 | One statement of the counting producer on the shared variables is one step. |
| BatchCondition.Tasks.Execute | pthread/pthread_condition.cpp:65-69 | The tasks interleaved along any possible schedule perform the corresponding run. |
| SharedOwnership.NextCounts | smart_ptr/shared_ptr.cpp:39-71 | No operation touches a deleted block, no handle is left dangling, and every block's count stays the number of its handles. |
| SharedOwnership.NextPayloads | smart_ptr/shared_ptr.cpp:25-71 | Every wrapped payload stays either owned by one block or deleted once. |
| SharedOwnership.OwnersAfter | smart_ptr/shared_ptr.cpp:39-71 | The handle operated on leaves its old block and joins the target's, self-assignment included; nobody else moves. |
| SharedOwnership.DerefAfter | smart_ptr/shared_ptr.cpp:46-81 | A handle keeps showing its payload whatever happens to other handles; a copy or assignment shows what the other handle shows. |
| SharedOwnership.AssignIsDestroyThenCopy | smart_ptr/shared_ptr.cpp:53-64 | Assigning from another handle equals destroying and copying, so dropping first never frees what is copied next. |
| SharedOwnership.DeletedWithLastHandle | smart_ptr/shared_ptr.cpp:25-71 | A payload is deleted at the step that takes the last handle from its block and at no other. |
| SharedOwnership.CountsAreExact | smart_ptr/shared_ptr.cpp:39-86 | After any sequence of operations `use_count` is the number of live handles sharing the block, and each payload is owned or deleted, never both. |
| SharedOwnership.NothingLeaks | smart_ptr/shared_ptr.cpp:25-71 | When no handles remain, no block remains, and the payloads deleted are exactly those the operations wrapped, each once. |
| SharedPtrObjects.RefCount.Increment | smart_ptr/shared_ptr.cpp:9-11 | The count grows by one. |
| SharedPtrObjects.RefCount.Decrement | smart_ptr/shared_ptr.cpp:13-15 | The count falls by one and is returned. |
| SharedPtrObjects.SharedPtr.constructor | smart_ptr/shared_ptr.cpp:39-43 | Constructing from null or a raw pointer has exactly the effect of that operation, and keeps the invariant. |
| SharedPtrObjects.SharedPtr.Copy | smart_ptr/shared_ptr.cpp:46-50 | So has copying. |
| SharedPtrObjects.SharedPtr.Assign | smart_ptr/shared_ptr.cpp:53-64 | So has assignment, between any two handles. |
| SharedPtrObjects.SharedPtr.Destroy | smart_ptr/shared_ptr.cpp:67-71 | So has destruction. |
| SharedPtrObjects.SharedPtr.UseCount | smart_ptr/shared_ptr.cpp:84-86 | The result is the number of live handles on the same block, or zero. |
| UniqueOwnership.NextInv | smart_ptr/unique_ptr.cpp:11-67 | No operation deletes an object twice, and no object ends up with two handles, deleted while held, or unaccounted for. |
| UniqueOwnership.SourceFitsIff | smart_ptr/unique_ptr.cpp:11-67 | A construction or reset keeps ownership exclusive exactly when the pointer is null, unowned, or already the handle's own. |
| UniqueOwnership.ExactlyOneFate | smart_ptr/unique_ptr.cpp:11-67 | After any sequence of operations each object the program has made is owned by exactly one handle, or alive and unowned, or deleted exactly once and held by none. |
| UniqueOwnership.HoldersAfter | smart_ptr/unique_ptr.cpp:25-67 | Who holds an object after each operation, by one law that covers self-move and reset to the same pointer. |
| UniqueOwnership.FateChanges | smart_ptr/unique_ptr.cpp:14-67 | An owned object is deleted exactly when its handle lets go of it other than by `release` or a move; it becomes unowned only by `release`; deletion is final. |
| UniqueOwnership.NewObject | smart_ptr/unique_ptr.cpp:92 | A new object is alive and unowned, nothing else changes, and any handle may be constructed from it. |
| UniqueOwnership.ExistsAfter | smart_ptr/unique_ptr.cpp:11-67 | Which objects and handles exist after each operation: `new` makes exactly one object, construction one handle, destruction removes one, the others none. |
| UniqueOwnership.DeletedBy | smart_ptr/unique_ptr.cpp:14-67 | Which object, if any, each operation deletes. |
| UniqueOwnership.LifeOfObject | smart_ptr/unique_ptr.cpp:11-16 | Made, given to a handle and destroyed with it, an object has been owned by that handle and is deleted once; all else is as before. |
| UniqueOwnership.HandedOver | smart_ptr/unique_ptr.cpp:11-59 | Released by one handle and taken over by the next, an object is deleted with the second and not with the first. |
| UniquePtrObjects.UniquePtr.constructor | smart_ptr/unique_ptr.cpp:11 | Construction has exactly the effect of that operation, and keeps the invariant. |
| UniquePtrObjects.UniquePtr.Move | smart_ptr/unique_ptr.cpp:25-27 | So has move construction. |
| UniquePtrObjects.UniquePtr.MoveAssign | smart_ptr/unique_ptr.cpp:30-37 | So has move assignment, also to itself. |
| UniquePtrObjects.UniquePtr.Release | smart_ptr/unique_ptr.cpp:55-59 | The held pointer is handed out, nothing is deleted, and no handle holds it any more. |
| UniquePtrObjects.UniquePtr.Reset | smart_ptr/unique_ptr.cpp:62-67 | So has reset, also to the same pointer. |
| UniquePtrObjects.UniquePtr.Destroy | smart_ptr/unique_ptr.cpp:14-16 | So has destruction. |
| LazySingleton.NextInv | design_pattern/singleton/LazySingleton.cpp:26-39 | The invariant of the two tests, the lock, the construction and the publication is inductive over every interleaving. |
| LazySingleton.ConstructedOnce | design_pattern/singleton/LazySingleton.cpp:26-39 | In every reachable state the constructor has run at most once, and every finished call has returned the same non-null, constructed object. |
| LazySingleton.InstanceChangesOnce | design_pattern/singleton/LazySingleton.cpp:24-36 | Along every run `instance` changes only from null, and only to an object that is already constructed. |
| LazySingleton.EveryCallReturns | design_pattern/singleton/LazySingleton.cpp:26-53 | Runs have at most eight steps per thread and nine per further call, and can always be continued until every call has returned. |
| LazySingleton.FastPath | design_pattern/singleton/LazySingleton.cpp:27-38 | Once the object is published a call returns it in two steps of its own, without the mutex and whoever holds it. |
| LazySingleton.LatePath | design_pattern/singleton/LazySingleton.cpp:29-38 | A thread that saw null but locks after the publication constructs nothing, gives the mutex back and returns the object. |
| LazySingleton.SlowPath | design_pattern/singleton/LazySingleton.cpp:27-38 | The call that finds null twice constructs one object, publishes it, gives the mutex back and returns it. |
| LazySingleton.NeverLocksAgain | design_pattern/singleton/LazySingleton.cpp:26-39 | A call begun after the publication, and every later one of that thread, never owns the mutex nor waits for it, whatever the others do. |
| LazySingleton.CallsInTurn | design_pattern/singleton/LazySingleton.cpp:26-53 | When any threads call one after another the first constructs the object and all get it. |
| LazySingleton.Singleton.StepGet | design_pattern/singleton/LazySingleton.cpp:26-39 | One statement of `get` on the static members is one step. |
| LazySingleton.Singleton.Execute | design_pattern/singleton/LazySingleton.cpp:42-53 | Threads interleaved along any possible schedule perform the corresponding run. |
| Reaper.NextInv | multi_process/3http_server.cpp:45-109 | A zombie is announced by the pending bit or still looked for by the handler; children are reaped once; the counts add up: inductive over every step. |
| Reaper.NoChildLost | multi_process/3http_server.cpp:45-109 | In every reachable state the children, as many as forks succeeded, are running, zombies still to be looked for, or reaped exactly once, and a quiescent state has no zombies. |
| Reaper.HandlerCatchesUp | multi_process/3http_server.cpp:45-47 | The handler takes at most four steps per exit in any run, and left alone comes to rest with all exited children reaped and the living untouched. |
| Reaper.ChildrenCanExit | multi_process/3http_server.cpp:96-104 | Any running children can exit at any time and in any order, also while the signal is pending or being handled; the one bit is set. |
| Reaper.OneDeliveryReapsAll | multi_process/3http_server.cpp:45-47 | One delivery is enough for all zombies, in whatever order waitpid finds them; the main loop stands where it stood. |
| Reaper.ExitsCoalesce | multi_process/3http_server.cpp:45-109 | From any quiescent reachable state: whichever children exit, and in whichever order waitpid then finds them, one delivery reaps them all. |
| Reaper.OnlyHandlerAndChildren | multi_process/3http_server.cpp:83-109 | While the handler runs it is not entered again, and the main loop stands still. |
| Reaper.Process.ServeOne | multi_process/3http_server.cpp:85-109 | A round of the main loop adds one running child exactly if accept and fork succeed. |
| Reaper.Process.Waitpid | multi_process/3http_server.cpp:46 | A non-blocking wait reaps some zombie, or finds that there is none. |
| Reaper.Process.ReapZombies | multi_process/3http_server.cpp:45-47 | The handler's loop ends whatever children exit meanwhile, and a zombie it leaves behind has set the pending bit again. |
| ParallelMap.RangesPartition | pthread/pthread_join.cpp:51-53 | Every index lies in the range of exactly one worker, and no range leaves the array. |
| ParallelMap.NextInv | pthread/pthread_join.cpp:31-61 | What each worker has done and not done is kept by every step of every worker and of main. |
| ParallelMap.JoinedResult | pthread/pthread_join.cpp:31-61 | Under every interleaving no index is in flight twice, each element is untouched or multiplied once, and after the joins the array is the sequential result. |
| ParallelMap.NoOverflow | pthread/pthread_join.cpp:37-48 | No 32-bit overflow under any interleaving if the sequential result has none, and only then after the joins. |
| ParallelMap.EveryRunEndsRight | pthread/pthread_join.cpp:51-61 | Runs are bounded, and every run that cannot go on has the sequential result. |
| ParallelMap.StepsCommute | pthread/pthread_join.cpp:31-61 | Any two steps possible at the same time can be taken in either order with the same result: no step of one worker disables or changes a step of another. |
| ParallelMap.NeverBlocked | pthread/pthread_join.cpp:37-38 | A worker that exists and has not finished can always go on, whatever the others are in the middle of. |
| ParallelMap.Process | pthread/pthread_join.cpp:31-39 | The in-place loop multiplies exactly its own range. |
| ParallelMap.Program.ReadElement | pthread/pthread_join.cpp:38 | Reading an element is one step. |
| ParallelMap.Program.WriteElement | pthread/pthread_join.cpp:37-38 | Writing it back and advancing is one step. |
| ParallelMap.Program.ExecuteAll | pthread/pthread_join.cpp:44-61 | Any complete schedule leaves the sequential result in the array. |
| MemoryPool.LayoutSoundIff | memory_pool/memory_pool1.cpp:6-12 | All blocks lie in the buffer exactly when there are none, or the block size is positive and the total does not wrap around. |
| MemoryPool.NextInv | memory_pool/memory_pool1.cpp:14-27 | Free and live blocks stay disjoint, free of duplicates and together all the blocks. |
| MemoryPool.PoolSafety | memory_pool/memory_pool1.cpp:6-27 | After any sequence of operations live blocks are aligned, in bounds and do not overlap; the next block is unused; null comes exactly when all are live. |
| MemoryPool.LastBlockFirst | memory_pool/memory_pool1.cpp:6-23 | A new pool, all zeros, hands out its blocks from the last one down to the first and then null. |
| MemoryPool.DeallocateUndoesAllocate | memory_pool/memory_pool1.cpp:14-27 | Giving a block straight back restores the pool, free list and all. |
| MemoryPool.AllocateUndoesDeallocate | memory_pool/memory_pool1.cpp:14-27 | The block given back last is handed out next, and the pool is as before. |
| MemoryPool.ContentsPrivate | memory_pool/memory_pool1.cpp:6-27 | Until a block is given back its contents depend only on the writes to that block. |
| MemoryPool.ContentsKept | memory_pool/memory_pool1.cpp:6-27 | A block nobody writes to or gives back keeps its bytes. |
| MemoryPool.FixedPool.constructor | memory_pool/memory_pool1.cpp:6-12 | The buffer is all zeros, and the loop fills the free list with the blocks in ascending order. |
| MemoryPool.FixedPool.AllocateBlock | memory_pool/memory_pool1.cpp:14-23 | Returns the top of the free list or null, with exactly that effect. |
| MemoryPool.FixedPool.DeallocateBlock | memory_pool/memory_pool1.cpp:25-27 | Puts a live block on top of the free list. |
| ProcessPool.ShareAt | multi_process/2process_pool.cpp:84-86 | Dealing in rotation puts task t at place t / n of worker t mod n. |
| ProcessPool.ShareSize | multi_process/2process_pool.cpp:84-86 | The size of each worker's share, so that two shares differ by at most one. |
| ProcessPool.NextInv | multi_process/2process_pool.cpp:78-102 | What a worker has run, is running and has in its pipe is its share, in order, after every step. |
| ProcessPool.DealtInRotation | multi_process/2process_pool.cpp:78-102 | In every reachable state task t is or was the (t / n)-th task of worker t mod n, workers run in submission order, and loads differ by at most one. |
| ProcessPool.EachTaskOnce | multi_process/2process_pool.cpp:78-102 | In every reachable state the tasks run, running and waiting are together exactly those of the run's submissions, each once. |
| ProcessPool.EverythingRuns | multi_process/2process_pool.cpp:90-102 | Runs have at most three steps per submission, and the workers alone come to an end where everything has been run exactly once by the right worker, in order. |
| ProcessPool.Pool.SubmitTask | multi_process/2process_pool.cpp:78-87 | Submitting writes to the next pipe and advances, and keeps the invariant. |
| ProcessPool.Pool.ReadTask | multi_process/2process_pool.cpp:92-100 | A worker takes the oldest task from its pipe. |
| ProcessPool.Pool.RunTask | multi_process/2process_pool.cpp:101 | A worker runs the task it has read. |
| FileFraming.HeaderRoundTrip | kcp_demos/include/kcp_wrapper.h:19-24 | A header written in front of any data is read back unchanged. |
| FileFraming.NameSurvivesIff | kcp_demos/src/kcp_wrapper.cpp:278-279 | A name survives exactly if it has no NUL and at most 255 bytes. |
| FileFraming.NameArrives | kcp_demos/src/receiver.cpp:30 | The receiver reads from every message the name the sender put in, as truncated there. |
| FileFraming.MessageCount | kcp_demos/src/kcp_wrapper.cpp:281-306 | A file takes size / CHUNK_SIZE + 1 messages, all but the last full; an exact multiple ends with a header alone. |
| FileFraming.MessageAt | kcp_demos/src/kcp_wrapper.cpp:284-293 | Which bytes of the file message k carries. |
| FileFraming.TotalsAscend | kcp_demos/src/kcp_wrapper.cpp:298-303 | The reported totals never go back and end at the file size. |
| FileFraming.FitsBufferIff | kcp_demos/include/kcp_wrapper.h:80-83 | All messages fit the receive buffer exactly when the file and one header do. |
| FileFraming.EveryMessageSaysWhat | kcp_demos/src/kcp_wrapper.cpp:273-293 | Every message of a file carries the magic bytes, the file type, the size of the whole file and the name, ended by a NUL. |
| FileFraming.ReceiveLaw | kcp_demos/src/receiver.cpp:16-46 | What any message does, also a foreign one: shorter than a header or without the magic bytes it changes nothing; otherwise the file it names gains all that follows the header, and no other file changes. |
| FileFraming.NameOfMessage | kcp_demos/src/receiver.cpp:30 | The name a message carries is the text from the name offset to the first NUL. |
| FileFraming.ReceiveOne | kcp_demos/src/receiver.cpp:16-46 | A message from the sender appends its chunk to the file of that name. |
| FileFraming.FileArrives | kcp_demos/src/receiver.cpp:16-46 | The first k messages of a file append exactly what they carry, and change no other file. |
| FileTransfer.BrokenOffFileArrives | kcp_demos/src/kcp_wrapper.cpp:292-296 | When the transport refuses a message, what the accepted ones carry has arrived and nothing else. |
| FileTransfer.DirectoryArrives | kcp_demos/src/kcp_wrapper.cpp:240-256 | For any names, clashing or truncated ones included: each file gains what was sent under its arrival name, in order, and nothing else changes. |
| FileTransfer.DirectoryRoundTrip | kcp_demos/src/kcp_wrapper.cpp:240-309 | With distinct, NUL-free names of at most 255 bytes each file arrives as its old contents followed by exactly what was sent, and all other files are unchanged. |
| FileTransfer.DirectoryResult | kcp_demos/src/kcp_wrapper.cpp:240-309 | What is sent and returned whatever fails first: a prefix of all messages up to the first missing file; success exactly if nothing is missing, all is accepted and the listing is complete; a send error exactly if the transport refuses one. |
| FileTransfer.InputFile.Read | kcp_demos/src/kcp_wrapper.cpp:284-290 | A read gets the next bytes into the buffer, and sets `eof` if they are fewer than asked for. |
| FileTransfer.KCPWrapper.Send | kcp_demos/src/kcp_wrapper.cpp:179-184 | A message is accepted exactly if the wrapper is initialized, the message is not empty and the transport takes it. |
| FileTransfer.KCPWrapper.SendChunks | kcp_demos/src/kcp_wrapper.cpp:281-308 | The loop, with its reused buffer, ends for every size and sends exactly the file's messages, or a prefix and an error, reporting each. |
| FileTransfer.KCPWrapper.SendFileInternal | kcp_demos/src/kcp_wrapper.cpp:258-309 | Sends the file's messages or reports that it cannot be opened or sent. |
| FileTransfer.KCPWrapper.SendDirectory | kcp_demos/src/kcp_wrapper.cpp:240-256 | Sends the files in turn and stops at the first failure with its code; an incomplete listing is no success. |
| FileTransfer.FileReceiver.OnDataReceived | kcp_demos/src/receiver.cpp:16-46 | Short messages and those without the magic bytes change nothing; others append what follows the header to the file they name, and change no other. |
| FileTransfer.Transfer | kcp_demos/src/receiver.cpp:75-77 | A directory sent with success and delivered whole and in order satisfies the round trip on the receiver's files. |

## Left out

- `data` of the producer/consumer: it is never read or written, so only the count of items is modelled; thread creation and joining there are not.
- `capicity` below zero, on which the constructor's array allocation throws.
- Exit of the batch consumer: it loops forever, and the model ends with it asleep.
- Weak memory: the first read of `instance` is not atomic in the code; the model assumes sequential consistency.
- Payloads of SharedPtr that themselves hold handles, the same raw pointer wrapped twice, and use of a handle after its destruction: these are excluded by the conditions on operations.
- The reference count's `int` is unbounded in the model, as if there were never more than 2147483647 handles on one block.
- Dereferencing an empty SharedPtr or UniquePtr.
- `signal` is taken to keep the handler installed and to block the signal while it runs; accept and fork appear only by their success or failure, and the client handling of the child not at all.
- The instant between a child's exit and its SIGCHLD: becoming a zombie and setting the pending bit are one step.
- A failing pthread_create, after which the program joins a thread that does not exist; the missing return of `process`.
- ParallelMap.Process: arithmetic is on unbounded integers; `ParallelMap.NoOverflow` says when this is what the machine computes.
- Deallocating a block that is not live, which the code does not detect; `MemoryPool.FixedPool.DeallocateBlock` requires a live block.
- Construction and destruction of the process pool, closing of pipes, a full pipe that blocks `submit`, and reading or writing part of a task.
- A second process pool: `nextWorker` is static and shared by all pools, so rotation is modelled for one pool only.
- Whether a task copied between processes byte by byte can be run there: tasks are opaque.
- KCP, UDP, multicast and polling: delivery of whole messages in order is a hypothesis. The programs shown do not meet it for files over 65263 bytes, and the sender never calls `update`.
- FileFraming.NameIn: a message without a NUL after the name offset ends the name at the end of the message; the code would read on.
- Paths: files are keyed by the name in the header; joining it to the save path, creating directories, and two names for one file are not modelled. A file that cannot be opened is one in `blocked`.
- A file that changes while it is sent.
- Sleeps, console output, thread ids, real time, and the other demonstrations of the repository.
