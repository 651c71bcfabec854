# A verified model of the clst core

clst is a C++ utility library. This project models its stateful core in Dafny and proves what that core is for:

- `Channel`, the closable blocking queue, and `ThreadPool`, both as state machines whose steps are the critical
  sections, the notifies issued after unlocking, and spurious wakeups (`Channel.dfy`, `ChannelSafety.dfy`,
  `ChannelFifo.dfy`, `ChannelRuns.dfy`, `ChannelCalls.dfy`, `ChannelOrder.dfy`, `ChannelSkipping.dfy`,
  `ThreadPool.dfy`, `PoolHistory.dfy`, `PoolCalls.dfy`, `PoolRuns.dfy`).
  `ChannelObject.dfy`, `ThreadPoolObject.dfy` and `ArcStringObject.dfy` hold these components and the reference-counted
  strings as classes, one method per step, each proved to take exactly the step that the theorems over runs are about
  and to keep their invariants; the table lists those of these methods that promise more.
- The three-thread pipeline of the channel's own scenario, from start to termination (`Pipeline.dfy`).
- `RingBuffer` over raw storage with explicit construction and destruction (`RingBuffer.dfy`).
- `ArcString`, the reference-counted handle, with every atomic access a step of its own (`ArcString.dfy`), and what
  its operations leave behind, interleaved and alone (`ArcOperations.dfy`, `ArcStringObject.dfy`).
- Numbers as bytes and the memory cursor: numeric encoding, patching, chunked copying (`Digits.dfy`,
  `MemoryCursor.dfy`).
- Morton codes (`Morton.dfy`) and the bump allocator `Arena` (`Arena.dfy`).
- `Tallies.dfy` counts and weighs the elements of sequences, `Measures.dfy` has the arithmetic of the termination
  bounds, `Options.dfy` the option type.

## How the concurrent parts are modelled

A state holds the queue, the flags and one program counter per call (and per worker). The index of a call is its
identity, so the number of threads, the calls made and their interleaving are arbitrary. `wait` releases the lock and
falls asleep in one step; a sleeper that was woken re-runs its critical section and so checks its predicate again (ISO
C++17, section 33.5). `notify_one` picks any sleeper. Spurious wakeups are allowed in every safety result and excluded
only from the bounds on the length of runs. `log`, `removed`, `accepted` and `fates` record history; no step reads them.
Calls may begin at any time, which includes every schedule of client threads that make one call after another.

## Where the code differs from what it is meant to do

- `RingBuffer::clear` tests `i < first_ + count_` while its body lowers `count_`, so it stops half way: of n objects it
  destroys ceil(n/2) and leaves floor(n/2) counted, and the destructor and the move assignment leak floor(n/2) objects.
  `RingBuffers.RingBuffer.Clear` proves this, and that the result is a sound buffer exactly when n <= 1;
  `RingBuffers.HalfCleared` reaches an unsound one; `RingBuffers.RingBuffer.ClearAll` proves the intended result for the
  same loop with its bound fixed on entry.
- The skipped notifications of the single-producer and single-consumer channels are safe if and only if each skipping
  side has one client or nothing to skip (`ChannelSkipping.SkippingIsSafeExactlyWhen`). The condition is on the template
  arguments, the capacity and the clients' promise.
- `patch_bytes` and `patch_num` leave the position as it was if and only if the write does not overflow at a valid
  offset, or that offset was the position; otherwise the cursor stays at the offset (`PatchStaysAway`,
  `PatchNumStaysAway`).
- `copy_from` loses input when it fails on the writing side: the source is then ahead of what was written by one chunk.
  This happens if and only if the copy does not fit and the source still holds the whole of the first chunk that does
  not fit the target (`MemoryCursors.MemoryCursor.CopyFrom`; `CopyLosesInput` reaches such a state).

## Model

| member | source | states |
|---|---|---|
| ChannelSafety.StepKeepsWakeInv | clst/clst/channel.hpp:65-195 | No lost wakeup, for any number of threads: every step, spurious wakeups included, keeps "a sleeping consumer implies a notify_all on its way, or an open channel whose items are all matched by pending notifies and woken consumers", and the same for producers and free slots. With a skipped notify the matching is "an item, respectively a free slot, implies a pending notify". |
| ChannelSafety.StepKeepsBound | clst/clst/channel.hpp:65-195 | Every step keeps length <= max_ in every bounded configuration, whoever skips notifications. |
| ChannelSafety.EmplaceKeepsWakeInv | clst/clst/channel.hpp:65-100 | The critical section of emplace keeps that invariant, both when it sleeps, refuses, or appends with or without a notify to send. |
| ChannelSafety.PopKeepsWakeInv | clst/clst/channel.hpp:114-184 | The critical section of pop keeps it, with the notify skipped under Sp unless the queue was full. |
| ChannelSafety.NotifyOneKeepsWakeInv | clst/clst/channel.hpp:82-181 | Sending a notify_one keeps it, whichever sleeper is woken and also when nobody sleeps. |
| ChannelSafety.NotifyAllConsumersKeepsWakeInv | clst/clst/channel.hpp:108 | The notify_all of close on cond_pop_ keeps it. |
| ChannelSafety.NotifyAllProducersKeepsWakeInv | clst/clst/channel.hpp:109-194 | The notify_all of close on cond_emplace_ (and the one of clear) keeps it. |
| ChannelSafety.ClearKeepsWakeInv | clst/clst/channel.hpp:186-195 | clear keeps it: the freed slots are matched by its pending notify_all. |
| ChannelSafety.CloseKeepsWakeInv | clst/clst/channel.hpp:102-112 | close keeps it: everyone asleep has a notify_all coming. |
| Channels.WakeProducersCounts | clst/clst/channel.hpp:109-111 | A notify_all empties the set of sleeping producers, turns each of them into a woken one and changes no other count. |
| ChannelOrder.ChannelIsLinearizable | clst/clst/channel.hpp:65-195 | Linearizability, for every run of a new channel: the decided calls, in the order in which they took effect, form a history that a sequential bounded FIFO queue with a closed flag produces, ending in the channel's contents. The history has every decided call exactly once, with its outcome, and each outcome answers the call that was begun: an item is accepted or refused for an emplace of that very item, taken or missed by a pop, cleared by a clear, closed by a close. It respects time: a call decided at some moment comes before every call that was then undecided or not yet begun. |
| ChannelOrder.RunIsSequential | clst/clst/channel.hpp:65-195 | Over any run from any state, the channel does what the sequential queue does: an accepted item goes to the back, a pop takes the front, clear empties, close closes, and each refusal and failure is one the sequential queue would give. |
| ChannelOrder.RunIsExact | clst/clst/channel.hpp:65-195 | The calls that took effect in a run are exactly those it decided, each once, with the outcome they end with. |
| ChannelCalls.EmplaceDecides | clst/clst/channel.hpp:69-99 | emplace sleeps exactly in front of a full and open bounded channel, returns false exactly from a closed one, and otherwise succeeds; it then notifies, except under Sc when the queue was not empty. |
| ChannelCalls.PopDecides | clst/clst/channel.hpp:114-184 | pop sleeps exactly when the queue is empty and open, fails exactly when it is empty and closed, and otherwise takes the front; it then notifies in a bounded channel, except under Sp when the queue was not full. |
| ChannelCalls.RunKeepsUnheard | clst/clst/channel.hpp:65-195 | In an unbounded channel no call ever waits on, or is about to notify, cond_emplace_. |
| ChannelCalls.StepKeepsCalls | clst/clst/channel.hpp:65-195 | A step leaves every call the call it was begun as, its item included, changes nothing about returned calls, and decides no call but the one whose critical section it is. |
| ChannelCalls.RunServes | clst/clst/channel.hpp:65-195 | The calls after a run are those before it followed by exactly those it began, in order. |
| ChannelOrder.RunFollows | clst/clst/channel.hpp:65-195 | Over any run the log and the list of removals only grow at their ends, outcomes stand, and a closed channel stays closed and accepts nothing. |
| ChannelOrder.EarlierAcceptedFirst | clst/clst/channel.hpp:65-100 | If emplace a had succeeded when emplace b was undecided or not begun, the item of a lies ahead of that of b in every later log. |
| ChannelOrder.EarlierTakenFirst | clst/clst/channel.hpp:114-184 | If pop a had its item when pop b was undecided or not begun, the item of a left before that of b. |
| ChannelFifo.StepKeepsFifo | clst/clst/channel.hpp:65-195 | Conservation, kept by every step: the log of accepted items is the removed prefix followed by the queue; an item is logged exactly when its emplace succeeds, once; each successful pop has exactly one entry and no entry went to two; a dropped entry was dropped by a clear; emplace is refused only when closed, pop fails only when closed and empty. |
| ChannelFifo.AcceptKeepsFifo | clst/clst/channel.hpp:76-80 | An accepted item is logged behind everything accepted before, and the history stays exact. |
| ChannelFifo.TakeKeepsFifo | clst/clst/channel.hpp:120-125 | A pop is handed the oldest entry not yet removed, which goes to no other call. |
| ChannelFifo.ClearKeepsFifo | clst/clst/channel.hpp:186-195 | clear drops every entry still queued and no other, and leaves the queue empty. |
| ChannelRuns.ReachableIsSafe | clst/clst/channel.hpp:65-195 | In every reachable state the history is exact, the queue within its bound and, unless notifications are skipped without the promise that justifies it, no wakeup is lost. |
| ChannelRuns.FailedPopIsFinal | clst/clst/channel.hpp:65-195 | After one failed pop, in every continuation: nothing is accepted or delivered any more, every pop not decided by then fails if it returns, and every such emplace is refused. |
| ChannelRuns.DrainedStaysDrained | clst/clst/channel.hpp:65-195 | A closed and empty channel stays closed and empty, with the same history, in every run. |
| ChannelRuns.StepDescends | clst/clst/channel.hpp:65-195 | Every step of a call other than a spurious wakeup lowers the lexicographic pair (remaining steps of the calls, calls awake again). |
| ChannelRuns.RunsEnd | clst/clst/channel.hpp:65-195 | Every run of b calls without spurious wakeups has at most 3b^2 + 4b steps. |
| ChannelRuns.QuiescentNeverJams | clst/clst/channel.hpp:48-195 | In a reachable state where nothing can move: blocked producers mean open and full, blocked consumers open and empty, never both; a closed channel leaves no call blocked. |
| ChannelSkipping.SecondConsumerStranded | clst/clst/channel.hpp:69-85 | A run with two consumers under the Sc rule that ends with one of them asleep beside a non-empty queue and no notify pending, for every item and capacity above 1 (or none). |
| ChannelSkipping.SecondProducerStranded | clst/clst/channel.hpp:129-144 | A run with two producers under the Sp rule that ends with one of them asleep although there is room, for every capacity above 1. |
| ChannelSkipping.WakeInvNotStranded | clst/clst/channel.hpp:65-195 | The counting invariant rules out a sleeper that could go on while nobody is about to wake it. |
| ChannelSkipping.SkippingIsSafeExactlyWhen | clst/clst/channel.hpp:69-144 | For every configuration the constructor admits: no run strands a sleeper if and only if each side that skips notifies has a single client, or a capacity of 1 (or, for Sp, no bound) that leaves nothing to skip. |
| ChannelObject.Channel.PopIntoSection | clst/clst/channel.hpp:114-147 | The locked part of pop(dst): same step; dst is the item taken, or untouched when nothing was taken. |
| ChannelObject.Channel.PopOptionalSection | clst/clst/channel.hpp:149-184 | The locked part of pop(): the same step as the other overload; the result is the item taken or empty. |
| ChannelObject.Channel.NotifyOne | clst/clst/channel.hpp:82-181 | A notify_one wakes a sleeper of the right kind whenever there is one. |
| PipelineProofs.PipeStepKeepsInv | test/channel.cpp:14-49 | Every step of the three threads and of their two channels keeps the pipeline invariant: each log is the (mapped) input so far, each thread is where its channel's history says. |
| PipelineProofs.StuckIsFinished | test/channel.cpp:14-49 | A pipeline that can go no further has finished all three threads and collected the map of the input in order. |
| PipelineProofs.PipePotentialFalls | test/channel.cpp:14-49 | Every step that is not a spurious wakeup lowers the pipeline's potential. |
| PipelineProofs.PipelineCorrect | test/channel.cpp:14-49 | For every input, all positive capacities and every interleaving: the collected sequence is always a prefix of the mapped input; a run that cannot go on has collected all of it; without spurious wakeups a run has at most w(3w+4) steps, w = 8(n+1). |
| PipelineProofs.StepKeepsChannel | clst/clst/channel.hpp:65-195 | A step inside a channel between one sender and one receiver keeps its invariants and leaves no third call unfinished. |
| PoolSafety.StepKeepsWakeInv | clst/clst/thread_pool.hpp:106-229 | No lost wakeup on the pool's three conditions, kept by every step: sleeping workers against queued tasks, sleeping enqueuers against free places, sleepers in wait_all against queued or running work; nb_working is the number of workers between taking and retiring; an exited worker means stopped and empty; the queue stays within max_jobs. |
| PoolSafety.WorkerSectionKeepsWakeInv | clst/clst/thread_pool.hpp:111-119 | The locked part of worker_loop that waits, exits or takes a task keeps it. |
| PoolSafety.RetireKeepsWakeInv | clst/clst/thread_pool.hpp:126-131 | Retiring a task with its notify under the lock keeps it. |
| PoolSafety.EnqueueKeepsWakeInv | clst/clst/thread_pool.hpp:217-229 | Whatever the locked part of enqueue_task decides, it keeps the three counting invariants. |
| PoolCalls.EnqueueDecides | clst/clst/thread_pool.hpp:217-227 | enqueue_task sleeps exactly in front of a full, running, bounded pool, throws EnqueueBlocked exactly from a stopped one, and otherwise puts its task behind all others. |
| PoolCalls.WorkerDecides | clst/clst/thread_pool.hpp:111-122 | A worker sleeps exactly when the pool runs and nothing is queued, exits exactly when it is stopped and nothing is queued, and otherwise takes the oldest queued task; it then notifies exactly in a bounded pool. |
| PoolCalls.RetireDecides | clst/clst/thread_pool.hpp:126-131 | Retiring wakes everybody in wait_all exactly when the last working thread retires, and nobody else. |
| PoolSafety.StopKeepsWakeInv | clst/clst/thread_pool.hpp:158-179 | Whatever the locked parts of stop and stop_now do, they keep the three counting invariants, waiters in wait_all included. |
| PoolCalls.StopDecides | clst/clst/thread_pool.hpp:158-179 | Every stop stops the pool; stop_now discards exactly the queued tasks and wakes wait_all exactly when nobody works; the others discard nothing and wake nobody under the lock. |
| PoolCalls.StopNotifies | clst/clst/thread_pool.hpp:165-191 | After unlocking, a stop wakes all sleeping workers, then in a bounded pool all sleeping enqueuers, and then returns, or goes on to join if it is the destructor. |
| PoolCalls.StepKeepsEnds | clst/clst/thread_pool.hpp:158-229 | Kept by every step: enqueue has thrown only from a stopped pool; the pool is stopped if and only if some stop has been through its critical section; a stop_now leaves it empty; no destructor returns without joining. |
| PoolSafety.StopNotifyKeepsWakeInv | clst/clst/thread_pool.hpp:158-182 | The two notify_alls after unlocking keep it. |
| PoolHistory.StepKeepsHistory | clst/clst/thread_pool.hpp:106-229 | Task conservation, kept by every step: each accepted task is queued in acceptance order, or held by exactly one worker, or done, or discarded by a stop_now; calls and accepted tasks correspond one to one; whoever returned from wait_all waited for all tasks accepted until its final check; whoever joined has seen those workers exit. |
| PoolHistory.NothingLeft | clst/clst/thread_pool.hpp:196-197 | With nothing queued and nb_working zero, every accepted task is done or discarded. |
| PoolRuns.ReachableIsSafe | clst/clst/thread_pool.hpp:106-229 | Both invariants hold after every run from a pool of any size. |
| PoolRuns.RunFollows | clst/clst/thread_pool.hpp:106-191 | Over any run: accepted tasks stay accepted in order, tasks leave the queue in that order and at most once, a fate only goes from running to done by the same worker, exited workers stay exited, a stopped pool accepts nothing and, once empty, starts and discards nothing. |
| PoolRuns.EarlierAcceptedFirst | clst/clst/thread_pool.hpp:217-227 | If enqueue a had been accepted when enqueue b was undecided or not begun, the task of a lies ahead of that of b in every later state, and has left the queue whenever that of b has. |
| PoolRuns.TasksAreRequested | clst/clst/thread_pool.hpp:158-229 | Over any run of a new pool every accepted task was begun as an enqueue, each by its own call, and every discarded task fell to a call begun as stop_now. |
| PoolRuns.ExitIsFinal | clst/clst/thread_pool.hpp:113-115 | A worker exits only from a stopped and empty pool, which stays stopped and empty for ever. |
| PoolRuns.DestructorJoins | clst/clst/thread_pool.hpp:184-191 | A call begun as the destructor has returned only when every worker has exited, for any number of workers. |
| PoolRuns.DestructorDrains | clst/clst/thread_pool.hpp:184-191 | When a call begun as the destructor has returned (at least one worker), the pool is stopped and empty and every accepted task is done, or was discarded by a stop_now; without a stop_now all are done. |
| PoolRuns.StopNowDiscards | clst/clst/thread_pool.hpp:169-179 | Over every run after the critical section of a stop_now: exactly the tasks that were queued then are discarded, by this call and for ever; the pool stays stopped and empty and accepts nothing more. |
| PoolRuns.StopNowIsFinal | clst/clst/thread_pool.hpp:169-182 | In every reachable state where some stop_now has been through its critical section, and in every later one, the pool is stopped and empty and discarded tasks stay discarded. |
| PoolRuns.NoWorkersNothingDone | clst/clst/thread_pool.hpp:136-144 | The complement: without workers nothing is ever run, and only a stop_now empties the queue. |
| PoolRuns.WaitAllIsExact | clst/clst/thread_pool.hpp:193-198 | When wait_all has returned, every task accepted before its final check is done or discarded, now and in every continuation. |
| PoolRuns.WaitAllChecks | clst/clst/thread_pool.hpp:193-198 | wait_all returns from a check if and only if every accepted task is done or discarded and no worker is still retiring; the count it records is the number of tasks accepted by then, and otherwise it sleeps. |
| PoolRuns.StepDescends | clst/clst/thread_pool.hpp:106-229 | Every step other than a new call or a spurious wakeup lowers a lexicographic pair of remaining work and threads awake again. |
| PoolRuns.RunsEnd | clst/clst/thread_pool.hpp:106-229 | With n workers, b calls, tasks that return and no spurious wakeups, a run has at most (2n + b(n+8))(n+b+1) + b steps. |
| PoolRuns.QuiescentIsDrained | clst/clst/thread_pool.hpp:106-229 | With at least one worker, where nothing can move: the queue is empty, no enqueuer, wait_all or join is blocked, every accepted task is done or discarded, and the workers are all asleep (running pool) or all exited (stopped pool). |
| ThreadPoolObject.ThreadPool.Retire | clst/clst/thread_pool.hpp:126-131 | The section that lowers nb_working and, at zero, wakes every wait_all under the lock. |
| RingBuffers.OverwritingKeepsTheLast | clst/clst/ring_buffer.hpp:75-79 | Any sequence of overwriting pushes onto a bounded list leaves the last max elements of everything; from empty, the last min(n, max) values. |
| RingBuffers.PushAllOver | clst/clst/ring_buffer.hpp:75-79 | The same on the buffer itself: after any number of calls of push_overwrite its view is the last max elements of the old view and the new values together. |
| RingBuffers.HalfCleared | clst/clst/ring_buffer.hpp:136-141 | Two pushes and a clear: one object is left, counted, and the buffer is unsound. |
| RingBuffers.PushWindow | clst/clst/ring_buffer.hpp:68-73 | The slot behind the cyclic window is raw, and constructing there extends the window and appends to the view. |
| RingBuffers.PopWindow | clst/clst/ring_buffer.hpp:103-107 | The first slot is live, and destroying it advances the window and drops the head of the view. |
| RingBuffers.PopBackWindow | clst/clst/ring_buffer.hpp:108-111 | The last slot is live, and destroying it drops the last element of the view. |
| RingBuffers.RingBuffer.constructor | clst/clst/ring_buffer.hpp:27-30 | Raw storage of max slots, an empty view. |
| RingBuffers.RingBuffer.Push | clst/clst/ring_buffer.hpp:68-73 | Refines the bounded list: refused exactly when full, appended otherwise; live slots are exactly the window. |
| RingBuffers.RingBuffer.PushOverwrite | clst/clst/ring_buffer.hpp:75-79 | Refines the list that forgets its head when full. |
| RingBuffers.RingBuffer.Emplace | clst/clst/ring_buffer.hpp:94-101 | The same, and the reference it returns is the new last element. |
| RingBuffers.RingBuffer.Pop | clst/clst/ring_buffer.hpp:103-107 | Removes the first element of a non-empty view and destroys one object. |
| RingBuffers.RingBuffer.PopBack | clst/clst/ring_buffer.hpp:108-111 | Removes the last element of a non-empty view and destroys one object. |
| RingBuffers.RingBuffer.At | clst/clst/ring_buffer.hpp:113-126 | Element i of the view, or the exception exactly when i >= count_. |
| RingBuffers.RingBuffer.Clear | clst/clst/ring_buffer.hpp:136-141 | As written: destroys exactly ceil(n/2) slots, those at the front of the window, leaves floor(n/2) counted, and is a sound (and empty) buffer if and only if n <= 1. |
| RingBuffers.RingBuffer.ClearAll | clst/clst/ring_buffer.hpp:136-141 | As intended: with the bound fixed on entry each live slot is destroyed once and the buffer is empty. |
| RingBuffers.RingBuffer.Drop | clst/clst/ring_buffer.hpp:32-35 | The destructor leaks exactly floor(n/2) objects, the back half of the window. |
| RingBuffers.RingBuffer.Move | clst/clst/ring_buffer.hpp:37-48 | Move construction takes over the view and leaves an empty source without storage. |
| RingBuffers.RingBuffer.MoveAssign | clst/clst/ring_buffer.hpp:50-64 | Move assignment takes over the view and leaks exactly floor(n/2) objects of the old storage. |
| ArcStrings.StepKeepsInv | clst/error.cpp:14-75 | Over interleaved threads, kept by every step: ref_cnt is the number of handles that own a share, copies and releases half done included; a block at zero is freed or has exactly one handle about to free it; every counter access and every delete hits a block that is not freed. Which handle ends with which block is stated by OperationEnds. |
| ArcOperations.OperationEnds | clst/error.cpp:18-47 | A whole operation, from its call to the first moment its target is at rest, whatever other threads do in between: the destructor leaves the target gone; a copy leaves it equal to its source, which is unchanged; a move leaves it what the source was at the call, and the source empty; and the target shows the text its source had at the call. |
| ArcOperations.OperationStep | clst/error.cpp:18-47 | Any step by any thread while a handle is in an operation leaves the operation under way with its source untouched, or completes it. |
| ArcOperations.OperationGoesOn | clst/error.cpp:18-47 | An operation never waits for another thread: it always has a step of its own that brings it nearer to its end. |
| ArcOperations.NewShows | clst/error.cpp:14-16 | A handle constructed from a text is settled on a new block with that text and counter 1; nothing else changes. |
| ArcOperations.RunKeepsTexts | clst/clst/error.hpp:21-22 | Over any run no block changes its text, and a freed block stays freed. |
| ArcStrings.EnabledIsSafe | clst/error.cpp:23-47 | The pinned source of a copy or a move is where the operation expects it, at every later step. |
| ArcStrings.FreedWhenUnowned | clst/error.cpp:67-75 | A block is freed, or about to be, exactly when no handle owns it; the block of a settled handle is never freed. |
| ArcStrings.FreedOnce | clst/error.cpp:67-75 | Over any run a block is deleted once if it is freed during the run, and never otherwise. |
| ArcStrings.NothingLeaks | clst/error.cpp:18-21 | When every handle is destroyed or empty, every block has been freed. |
| ArcStrings.CopySharesText | clst/error.cpp:23-34 | A finished copy points at its source's block and so at the same text. |
| ArcStringObject.SharedStrings.DeleteBlock | clst/error.cpp:72 | The block was alive before the delete and is freed after it. |
| ArcStringObject.SharedStrings.Text | clst/error.cpp:60-65 | Returns what the block of a non-empty settled handle holds, and that block is not freed. |
| ArcStringObject.SharedStrings.FinishRelease | clst/error.cpp:67-75 | release() without interference: the share goes, and the block is freed exactly when the share was the last. |
| ArcStringObject.SharedStrings.Drop | clst/error.cpp:18-21 | The destructor without interference: the handle is gone and its share released. |
| ArcStringObject.SharedStrings.NewCopy | clst/error.cpp:23-26 | The copy constructor without interference: a new handle equal to the source, one share more. |
| ArcStringObject.SharedStrings.NewMoved | clst/error.cpp:36-39 | The move constructor without interference: a new handle with the source's block, the source empty, no counter changed. |
| ArcStringObject.SharedStrings.CopyAssign | clst/error.cpp:27-34 | Copy assignment without interference: the old share released, then the source's block shared. |
| ArcStringObject.SharedStrings.MoveAssign | clst/error.cpp:40-47 | Move assignment without interference: the old share released, the source's block taken over, the source empty. |
| ArcStringObject.TextOf | clst/error.cpp:14-65 | A handle constructed from a text shows it. |
| ArcStringObject.TextOfCopy | clst/error.cpp:14-75 | A copy shows the text even after its source is destroyed. |
| ArcStringObject.TextOfMoved | clst/error.cpp:14-65 | A moved-to handle shows the text, and the moved-from one is empty. |
| ArcStringObject.TextOfAssigned | clst/error.cpp:14-75 | An assigned-to handle shows the new text, its old block is freed if it was the only owner, and the new one is not. |
| Digits.ValueOfDigits | clst/clst/binary_stream.hpp:164-179 | The n bytes emitted for v spell v mod 256^n, negative v included. |
| Digits.DecodedEncoded | clst/clst/binary_stream.hpp:83-179 | Reading what was written gives v mod 256^n, for every width and both orders. |
| Digits.EncodedDecoded | clst/clst/binary_stream.hpp:83-94 | Every sequence of bytes is the encoding of the number it spells. |
| Digits.SignedRoundTrip | clst/clst/binary_stream.hpp:83-179 | A signed value of the type, written and read at full width in either order, comes back itself. |
| Digits.LowestByte | clst/clst/binary_stream.hpp:164-179 | The little-endian form starts, and the big-endian form ends, with the lowest byte; the rest is the form of the higher digits. |
| Digits.LowBytes | clst/clst/binary_stream.hpp:169-170 | On either host the bytes at the computed offset of a wider object are its low bytes in host order. |
| Digits.OtherOrder | clst/clst/binary_stream.hpp:171-178 | Reversing exactly when stream and host differ gives the stream's order on both hosts. |
| Digits.FilledObject | clst/clst/binary_stream.hpp:89-92 | A zeroed object whose low bytes are filled in holds the number they spell. |
| MemoryCursors.ListRoundTrip | clst/clst/binary_stream.hpp:112-184 | Decoding an encoded list gives every value modulo its width, whatever bytes follow. |
| MemoryCursors.CopiedBytesFit | clst/clst/binary_stream.hpp:142-154 | An incomplete chunked copy is a whole number of chunks and fits the room; a complete one is all n bytes. |
| MemoryCursors.MemoryCursor.Seek | clst/clst/memory_cursor.hpp:42-66 | Moves to the base plus the offset, or refuses exactly when the target is out of [0, len] (from the end also for positive offsets). |
| MemoryCursors.MemoryCursor.Tell | clst/clst/memory_cursor.hpp:41 | The current position. |
| MemoryCursors.MemoryCursor.Read | clst/clst/memory_cursor.hpp:68-74 | Copies the next n bytes and advances by n, or changes nothing exactly when fewer are left. |
| MemoryCursors.MemoryCursor.Write | clst/clst/memory_cursor.hpp:97-103 | Overwrites the next n bytes and nothing else, or changes nothing exactly when the room is too small. |
| MemoryCursors.MemoryCursor.WriteNum | clst/clst/binary_stream.hpp:164-179 | On both hosts the bytes written are the stream-order digits of v mod 256^B. |
| MemoryCursors.MemoryCursor.ReadNum | clst/clst/binary_stream.hpp:83-94 | On both hosts the object afterwards holds the number the next B bytes spell in stream order. |
| MemoryCursors.MemoryCursor.ReversedCopy | clst/clst/binary_stream.hpp:172-173 | The reversed copy of the bytes to send. |
| MemoryCursors.MemoryCursor.ReverseInPlace | clst/clst/binary_stream.hpp:93 | Reverses its window of the object and touches nothing else. |
| MemoryCursors.MemoryCursor.CopyFrom | clst/clst/binary_stream.hpp:136-155 | Equals one n-byte read and write with both cursors advanced by n exactly when both sides have the room; otherwise the whole chunks that fit have been copied. It fails in the write, with the source one chunk ahead, if and only if the source still held the whole first chunk that did not fit; else it fails in the read, with both cursors level. |
| MemoryCursors.CopyLosesInput | clst/clst/binary_stream.hpp:149-154 | Five bytes into three: the copy throws with all five read and none written. |
| MemoryCursors.MemoryCursor.PatchBytes | clst/clst/binary_stream.hpp:157-162 | On success changes exactly its window and restores the position; each failure exactly when its bound is violated, with the position it leaves and exactly when that differs from the old one. |
| MemoryCursors.MemoryCursor.PatchNum | clst/clst/binary_stream.hpp:186-193 | The same, and the window reads back as v mod 256^B. |
| MemoryCursors.CopyLosesOneChunk | clst/clst/binary_stream.hpp:142-154 | 4194304 bytes into 4194303: a single chunk, all read and none written. |
| MemoryCursors.CopyLosesSecondChunk | clst/clst/binary_stream.hpp:142-154 | 4194305 bytes into 4194304: the first chunk is written, the second only read. |
| MemoryCursors.PatchStaysAway | clst/clst/binary_stream.hpp:157-162 | Two bytes at offset 3 of 4: the patch throws and the cursor stays at 3. |
| MemoryCursors.PatchNumStaysAway | clst/clst/binary_stream.hpp:186-193 | The same for a two-byte number. |
| MemoryCursors.WriteThenRead | clst/clst/binary_stream.hpp:83-184 | With room for all, a list written at full width on a host of one byte order and read back on a host of the same or the other returns every value modulo its width: itself, if it is in the unsigned range, or in the signed range read as two's complement. |
| MemoryCursors.WriteThenReadPart | clst/clst/binary_stream.hpp:83-179 | The B low bytes of a number, written from an object of any size on one host and read into an object of any size on the same or the other, leave that object holding v mod 256^B. |
| MemoryCursors.MemoryCursor.WriteNums | clst/clst/binary_stream.hpp:181-184 | Writes the encoding of the longest prefix of the list that fits. |
| MemoryCursors.MemoryCursor.ReadNums | clst/clst/binary_stream.hpp:112-115 | Reads the numbers that the bytes from the position spell, up to the first that is cut off. |
| Morton.MortonInterleaves | clst/clst/morton.hpp:15-48 | For coordinates below 2^21 the masked code is the recursive interleaving of their bits. |
| Morton.MortonInterleavesBits | clst/clst/morton.hpp:15-48 | The same for coordinates of any given bit length. |
| Morton.MortonOneLevel | clst/clst/morton.hpp:43-48 | The code of three numbers is that of their halves followed by their three lowest bits. |
| Morton.MortonDemorton | clst/clst/morton.hpp:26-60 | demorton_3d inverts morton_3d on coordinates below 2^21. |
| Morton.DemortonMorton | clst/clst/morton.hpp:26-60 | morton_3d inverts demorton_3d on every code below 2^63, with coordinates below 2^21. |
| Morton.MonotoneInX | clst/clst/morton.hpp:43-48 | The code grows strictly with x. |
| Morton.MonotoneInY | clst/clst/morton.hpp:43-48 | The code grows strictly with y. |
| Morton.MonotoneInZ | clst/clst/morton.hpp:43-48 | The code grows strictly with z. |
| Morton.MortonPrefix | clst/clst/morton.hpp:43-48 | The code shifted by 3k is the code of the coordinates each shifted by k, for every k up to 21. |
| Arenas.PadIsGap | clst/clst/arena.hpp:26-27 | The masked negation equals (2^N - cur mod 2^N) mod 2^N for every 64-bit address and every N up to 64. |
| Arenas.GapIsLeast | clst/clst/arena.hpp:26-31 | Address plus pad is the least aligned address from the cursor on. |
| Arenas.ChainedBlocks | clst/clst/arena.hpp:24-39 | Over any sequence of allocations the blocks are in range, pairwise disjoint and in order, and pads and sizes add up to the way the cursor has gone. |
| Arenas.Arena.Allocate | clst/clst/arena.hpp:24-34 | The result is the least aligned address, its block is appended to the chain; null leaves the arena unchanged and is returned exactly when no aligned block of that size fits. |
| Arenas.Arena.Capacity | clst/clst/arena.hpp:36-39 | Capacity plus all pads and sizes is constant. |

## Left out

- Memory orders weaker than sequential consistency; every atomic operation and every critical section is one step.
- Thread creation, the `init_fn` constructor argument, exceptions thrown by element or task constructors and moves, and
  the value or exception that a task leaves in its future. A task is its place in the order of acceptance.
- Tasks that never return, and tasks that call their own pool.
- Using a channel or a pool after its destruction; beginning calls is not restricted by the calls in progress, except by
  the single-client promise where one is made.
- `Channel::empty` and `Channel::size`, the channel factory functions, and the ring buffer's `front`, `back`, `empty`,
  `size` and `capacity`: one-line reads.
- Allocators of the ring buffer, use of a moved-from buffer, self-assignment, and overflow of `first_ + count_`.
- Copying from an empty ArcString, self-assignment, and using a handle from two threads at once: the source's
  operations dereference or lose the pointer there, and the model has them as preconditions of starting an operation.
- ArcStringObject.SharedStrings.Assign, and CopyConstruct and MoveConstruct beside it: each only starts its operation
  and pins the source, because other threads may come in between; the whole operations are Drop, NewCopy, NewMoved,
  CopyAssign and MoveAssign.
- Cursors that are not open or have a null buffer (the constructor asserts otherwise), lengths and counts above
  PTRDIFF_MAX, overflow of an offset added to the position, and overlapping buffers, for which the source's memcpy is
  undefined.
- The static casts of the stream base classes are taken to reach the cursor's own members, which is their intent.
- Floating-point numbers: they travel as the bytes of their representation, like an unsigned number of that size.
- The overloads that take the byte order at run time: a switch to the modelled ones.
- MemoryCursors.MemoryCursor.CopyFrom: the buffer it allocates starts as zeros in the model, where newer standard
  libraries leave it uninitialised; no byte of it is used before it is read into.
- Arenas.Arena.Allocate: addresses are 64-bit integers, sizes are not negative, alignments are powers of two up to 2^62,
  and address arithmetic does not overflow.
- The rest of the library: streams over files, shared objects, directories, terminal output, numeric casts, timers and
  type-level helpers.
