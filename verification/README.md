# Kernel models

A Dafny model of the parts of this RT-Thread port that carry state: the small-memory heap, the IPC objects, the
fixed-block pools, the text formatter, the intrusive lists under every wait queue, and the copy loops of the Ethernet
driver. Each is written in the form the C code has: byte arrays with in-band headers, objects whose fields are updated
section by section, loops over buffers. Each is proved against a specification by value, and what the kernel promises is
proved about that specification for all inputs, all reachable states and all interleavings.

- `Bytes.dfy`, `Distinct.dfy`: bytes and 32-bit words, alignment, memory copy; sequences without duplicates.
- `HeapChain.dfy`, `HeapImage.dfy`, `SmallMem.dfy`: the heap. A chain of blocks as a value; how it is laid out in the
  bytes that also hold the payloads; the allocator itself over an array of bytes.
- `IntrusiveList.dfy`, `WaitQueue.dfy`, `WaitList.dfy`: circular lists of nodes on the heap refine sequences; priority and
  FIFO queues; the same lists as sequences of thread numbers.
- `WaitChannel.dfy`: the argument against lost wakeups, once, for every object that blocks and resumes. `WaitHistory.dfy`:
  what a run does to a wait queue, told by the results of its sections: who waits, in which order, who has been resumed.
  `Histories.dfy`: what goes in and out of a container over a run.
- `Semaphore.dfy`, `Mutex.dfy`, `Event.dfy` with the flag words of `Flags.dfy`, `Mailbox.dfy`: one step per
  interrupt-disabled section. A machine over values with its invariant over all runs, and a class whose methods are the
  code of the sections, each proved to be a step of the machine.
- `MessageQueue.dfy`, `MessageSlots.dfy`: sends and receives of the message queue use two sections each with the copy in
  between. The first file is that protocol, with every copied byte a step of its own; the second is the code over the
  linked slots. `MessageRuns.dfy`: what their callers see over a run.
- `MemPool.dfy`: pools that share one memory; the header words of their blocks are free-list links or owner addresses.
- `NumberFormat.dfy`, `Formatter.dfy`: number conversion and rt_vsnprintf. `FieldFormat.dfy`: what a directive prints.
- `EthCopy.dfy`: frames between chains of packet buffers and a ring of descriptors.

`dafny verify dfyconfig.toml` checks everything.

Where code and expectation part, the model follows the code and states the exact condition:

- a size above 0xFFFFFFFC wraps in RT_ALIGN, so an allocation may return a block that is too small (`AllocHolds`);
- the heap search ends only if mem_size_aligned is at least MIN_SIZE_ALIGNED (`SearchStops`);
- reallocation frees the block and returns NULL for a nonzero size exactly when it is above 0xFFFFFFFC (`NullResult`);
- the message size of a queue is cut to 16 bits, so slots are too small for messages above 0xFFFC bytes (`SlotHolds`);
- a pool region without room for a block makes rt_mp_init write below it (`TerminatorInside`), and block sizes above
  0xFFFFFFF8 up to 0xFFFFFFFC make it divide by zero (`StepWraps`);
- an explicit precision of zero drops the digits of a number (`NumberLength`), and base eight is printed as sixteen,
  which is right only for numbers below eight (`OctalPrinted`, `OctalFails`);
- rt_vsnprintf truncates properly exactly when address plus length of the text stays below 2^32; beyond that the 32-bit
  pointer is below `end` again and low memory is overwritten (`TruncatesExactly`, `WideField`), and its int result is
  the length only below 2^31 (`Vsnprintf`);
- %s stops at the field width, so a width cuts a longer string instead of giving way to it (`StringInField`);
- skip_atoi wraps, so numbers beyond INT_MAX do not read back (`ScansPrinted`);
- a frame longer than the descriptor ring overwrites itself (`Overwritten`).

In `plug_holes` the branches that would set `lfree` to the lower of two free neighbours, and the overflow returns of
mailbox, message queue and mutex and the invalid-option return of the event set, are proved unreachable.

## Model

| member | source | states |
|---|---|---|
| Bytes.AlignRoundsUp | rt-thread-test/rt-thread-test/rt-thread/include/rtdef.h:329 | In 32 bits RT_ALIGN rounds a size up to the next multiple of four if and only if the size is at most 0xFFFFFFFC; it yields 0 exactly for 0 and for the sizes above that. |
| Bytes.PutWord | rt-thread-test/rt-thread-test/rt-thread/src/mem.c:223-231 | A stored header word reads back, and every disjoint word of the same byte region is unchanged. |
| Bytes.Memcpy | rt-thread-test/rt-thread-test/rt-thread/src/kservice.c:220-290 | rt_memcpy on disjoint ranges, by sixteen bytes, words and single bytes: the target holds the source bytes and nothing else changed, whatever the alignment and the count. |
| HeapChain.Conservation | rt-thread-test/rt-thread-test/rt-thread/src/mem.c:355-370 | Used and free spans, headers included, always add up to the whole region. |
| HeapChain.NoFitBeyond | rt-thread-test/rt-thread-test/rt-thread/src/mem.c:313-316 | Ending the search at mem_size_aligned - size loses nothing: no block past that offset is large enough. |
| HeapChain.CarveKeeps | rt-thread-test/rt-thread-test/rt-thread/src/mem.c:321-388 | Splitting or taking a free block keeps the chain tiled, aligned and without two free neighbours; the new block has the capacity asked for and less than a header and a minimal payload beyond it, and the used bytes grow by exactly its span. |
| HeapChain.CarveFirstFree | rt-thread-test/rt-thread-test/rt-thread/src/mem.c:381-388 | The lowest free block stays where it was unless the block taken was it; then every block up to it is used. |
| HeapChain.CarveLive | rt-thread-test/rt-thread-test/rt-thread/src/mem.c:321-377 | Allocation leaves every live block in the chain as it was and adds exactly one. |
| HeapChain.CoalesceKeeps | rt-thread-test/rt-thread-test/rt-thread/src/mem.c:125-163 | Uniting a freed block with its free neighbours on both sides restores the rule that no two neighbours are free and keeps the accounting. |
| HeapChain.ReleaseKeeps | rt-thread-test/rt-thread-test/rt-thread/src/mem.c:540-555 | Freeing keeps the chain well formed and returns exactly the span of the block freed. |
| HeapChain.ReleaseLive | rt-thread-test/rt-thread-test/rt-thread/src/mem.c:540-555 | Freeing ends the life of its own block and of no other. |
| HeapChain.ShrinkKeeps | rt-thread-test/rt-thread-test/rt-thread/src/mem.c:461-491 | Cutting a block in place keeps the chain well formed and returns exactly the bytes cut off. |
| HeapChain.FreedFirstFree | rt-thread-test/rt-thread-test/rt-thread/src/mem.c:547-550 | After a free the lowest free block is the lower of the freed block and the old lowest one. |
| HeapChain.UniteKeeps | rt-thread-test/rt-thread-test/rt-thread/src/mem.c:136-162 | Removing one free item in favour of its free neighbour keeps the tiling, the used bytes, the lowest free offset and every live block. |
| HeapChain.CoalesceInSteps | rt-thread-test/rt-thread-test/rt-thread/src/mem.c:125-163 | Merging forward and then backward, as plug_holes does, is the one-step union of the free neighbourhood. |
| HeapChain.ReleaseUndoesCarve | rt-thread-test/rt-thread-test/rt-thread/src/mem.c:512-556 | Freeing a just-allocated block restores the exact chain, for every heap, block and size. |
| HeapChain.ReleaseAllRestores | rt-thread-test/rt-thread-test/rt-thread/src/mem.c:512-556 | Freeing all live blocks, in any order, leaves one free block over the whole region. |
| HeapImage.Splice | rt-thread-test/rt-thread-test/rt-thread/src/mem.c:332-353 | Rewriting the headers of a run of blocks, in the bytes the payloads share, turns the memory image of a chain into the image of the chain with that run replaced; every other header stays in place. |
| HeapImage.SplicePayloads | rt-thread-test/rt-thread-test/rt-thread/src/mem.c:332-353 | Such a rewriting changes no payload byte of a live block outside the run. |
| HeapImage.PayloadWrite | rt-thread-test/rt-thread-test/rt-thread/src/mem.c:398-399 | Writing inside the payload of a live block leaves every header and every other payload in place. |
| HeapImage.InsertItem | rt-thread-test/rt-thread-test/rt-thread/src/mem.c:332-353 | The header writes of a split: the new item, the link of the item before it and the `prev` of the item after it, unless that is heap_end; no other byte changes. |
| HeapImage.Bypass | rt-thread-test/rt-thread-test/rt-thread/src/mem.c:138-162 | The header writes that take an item out of the chain; only bytes of the two items and the `prev` of the next one change. |
| SmallMem.InitFits | rt-thread-test/rt-thread-test/rt-thread/src/mem.c:178-216 | Initialisation succeeds if and only if the region does not reach 2^32 and the control block and two headers fit its aligned part, and then the heap stays inside it. |
| SmallMem.AllocHolds | rt-thread-test/rt-thread-test/rt-thread/src/mem.c:300-311 | An allocated block has room for the bytes asked for if and only if the size is at most 0xFFFFFFFC; above that RT_ALIGN wraps and the block is too small. |
| SmallMem.SearchStops | rt-thread-test/rt-thread-test/rt-thread/src/mem.c:313-316 | For every nonzero size that passes the size test, sizes that wrap to 0 included: the loop guard is false at heap_end, so the search stops, if and only if mem_size_aligned is at least MIN_SIZE_ALIGNED; below that no block fits and the guard still holds at heap_end, which leads to itself. |
| SmallMem.Heap.constructor | rt-thread-test/rt-thread-test/rt-thread/src/mem.c:221-241 | A fresh heap is one free block, nothing used, `lfree` at offset 0, with all headers in place. |
| SmallMem.Heap.Search | rt-thread-test/rt-thread-test/rt-thread/src/mem.c:313-325 | The search from `lfree` with its early bound finds exactly the lowest-addressed free block that is large enough, or reports that there is none; it terminates. |
| SmallMem.Heap.Alloc | rt-thread-test/rt-thread-test/rt-thread/src/mem.c:279-404 | Exact first fit over the bytes of the region: NULL if and only if the size is 0, too large or no free block fits, and then nothing changed; otherwise the chain is carved at the first fit, `used`, `max`, `lfree` and all headers follow, and no live payload changes. |
| SmallMem.Heap.AdvanceFree | rt-thread-test/rt-thread-test/rt-thread/src/mem.c:381-388 | The loop that moves `lfree` ends at the lowest free item or heap_end. |
| SmallMem.Heap.PlugHoles | rt-thread-test/rt-thread-test/rt-thread/src/mem.c:125-163 | The memory then shows the chain with the freed block united with its free neighbours, `lfree` is the lowest free item, and no live payload changed. The branch that would lower `lfree` is never taken. |
| SmallMem.Heap.Free | rt-thread-test/rt-thread-test/rt-thread/src/mem.c:512-556 | Freeing NULL changes nothing; freeing a live block releases exactly it, keeps `max`, and leaves every other payload alone. The asserts on its header are proved. |
| SmallMem.Heap.Realloc | rt-thread-test/rt-thread-test/rt-thread/src/mem.c:418-503 | The chain after reallocation in every case (too large, zero, NULL, same size, cut in place, moved, no room); NULL for a nonzero aligned size leaves the heap untouched; a returned block starts with the first min(old capacity, aligned new size) bytes of the old one; no other live payload changes. |
| SmallMem.StaysExactly | rt-thread-test/rt-thread-test/rt-thread/src/mem.c:456-503 | Reallocation leaves a block where it is if and only if it has the new size already or can be cut to it, and then with exactly the new size; any other block is moved, or refused if and only if no free block is large enough. |
| SmallMem.NullResult | rt-thread-test/rt-thread-test/rt-thread/src/mem.c:425-502 | For a nonzero new size, a NULL result of realloc means a changed heap if and only if a block was given and the size is above 0xFFFFFFFC; that block was then freed. |
| SmallMem.Heap.Move | rt-thread-test/rt-thread-test/rt-thread/src/mem.c:492-503 | Allocate, copy, free: the old bytes arrive although the headers around them are rewritten twice. |
| SmallMem.Heap.CutBlock | rt-thread-test/rt-thread-test/rt-thread/src/mem.c:461-491 | Shrinking in place keeps the first bytes of the block and every other live payload, and merges the rest with a free successor. |
| SmallMem.Heap.Write | rt-thread-test/rt-thread-test/rt-thread/src/mem.c:398-399 | A client that writes inside its own live block keeps the heap valid and all other payloads unchanged. |
| SmallMem.AllocThenFree | rt-thread-test/rt-thread-test/rt-thread/src/mem.c:512-556 | An allocation followed by its free leaves the chain, `lfree`, `used` and all live payloads exactly as they were. |
| IntrusiveList.ListInit | rt-thread-test/rt-thread-test/rt-thread/include/rtservice.h:47-50 | A node that points to itself is the empty list. |
| IntrusiveList.InsertAfter | rt-thread-test/rt-thread-test/rt-thread/include/rtservice.h:58-65 | The four pointer writes insert the node after a member of the ring, in the order of the ring. |
| IntrusiveList.InsertBefore | rt-thread-test/rt-thread-test/rt-thread/include/rtservice.h:73-80 | They insert it before a member; before the head means at the end of the list. |
| IntrusiveList.ListRemove | rt-thread-test/rt-thread-test/rt-thread/include/rtservice.h:86-92 | The node leaves the ring, the others keep their order, and the node is a ring of its own; a node already alone stays alone. |
| IntrusiveList.IsEmpty | rt-thread-test/rt-thread-test/rt-thread/include/rtservice.h:98-101 | The test of the head alone decides whether the list has members. |
| IntrusiveList.Len | rt-thread-test/rt-thread-test/rt-thread/include/rtservice.h:107-119 | The count equals the number of members; the walk terminates. |
| WaitQueue.PrioStable | rt-thread-test/rt-thread-test/rt-thread/src/ipc.c:140-157 | A newcomer waits behind exactly those of its own or higher priority: equals keep their order of arrival. |
| WaitQueue.EntryPosTells | rt-thread-test/rt-thread-test/rt-thread/src/ipc.c:131-165 | FIFO lets everybody who is there go first, PRIO exactly those of the same or higher priority. |
| WaitQueue.PrioSorted | rt-thread-test/rt-thread-test/rt-thread/src/ipc.c:140-157 | A priority queue stays sorted when a thread is put in. |
| WaitQueue.RemoveSorted | rt-thread-test/rt-thread-test/rt-thread/src/ipc.c:190-203 | It stays sorted when any thread leaves. |
| WaitQueue.FindPlace | rt-thread-test/rt-thread-test/rt-thread/src/ipc.c:140-157 | The walk finds the first waiter of strictly lower priority, or the list head. |
| WaitQueue.IpcListSuspend | rt-thread-test/rt-thread-test/rt-thread/src/ipc.c:121-168 | On the pointer ring: the thread is put at the end of a FIFO queue, and of a PRIO queue before the first waiter of lower priority; it is suspended. |
| WaitQueue.ThreadResume | rt-thread-test/rt-thread-test/rt-thread/src/thread.c:884-918 | A suspended thread leaves its list and is ready; any other thread is refused with -RT_ERROR and nothing changes. |
| WaitQueue.IpcListResume | rt-thread-test/rt-thread-test/rt-thread/src/ipc.c:190-203 | The first waiter, and no other, leaves the queue. |
| WaitQueue.IpcListResumeAll | rt-thread-test/rt-thread-test/rt-thread/src/ipc.c:219-247 | The loop terminates with an empty list; every waiter is detached, ready and told -RT_ERROR. |
| WaitList.Suspend | rt-thread-test/rt-thread-test/rt-thread/src/ipc.c:121-168 | What _ipc_list_suspend does to the ring is exactly what the machines do to the sequence of thread numbers: Enqueue, for FIFO and PRIO. |
| WaitList.SuspendFirst | rt-thread-test/rt-thread-test/rt-thread/src/mempool.c:352-354 | What rt_mp_alloc does to the ring puts the thread number at the front. |
| WaitList.Resume | rt-thread-test/rt-thread-test/rt-thread/src/ipc.c:190-203 | _ipc_list_resume takes the first thread number and leaves the rest. |
| WaitList.ResumeAll | rt-thread-test/rt-thread-test/rt-thread/src/ipc.c:219-247 | _ipc_list_resume_all leaves no thread number. |
| WaitList.TimeOut | rt-thread-test/rt-thread-test/rt-thread/src/thread.c:127-156 | The timer of the waiter at any place removes just its number, and the thread is ready and told -RT_ETIMEOUT. |
| WaitChannel.ArriveKeeps | rt-thread-test/rt-thread-test/rt-thread/src/ipc.c:2098-2109 | A unit put in resumes one waiter: while threads wait, the threads resumed and on their way still are at least as many as the units there. |
| WaitChannel.TakeKeeps | rt-thread-test/rt-thread-test/rt-thread/src/ipc.c:2328-2340 | The same when any running thread, resumed for it or just passing by, takes a unit. |
| WaitChannel.SuspendKeeps | rt-thread-test/rt-thread-test/rt-thread/src/ipc.c:2281-2284 | The same when a thread that found nothing queues up. |
| WaitChannel.TimeOutKeeps | rt-thread-test/rt-thread-test/rt-thread/src/thread.c:127-160 | The same when the timer of any waiter fires. |
| WaitChannel.SomeoneIsComing | rt-thread-test/rt-thread-test/rt-thread/src/ipc.c:2264-2355 | Hence no thread is left waiting for a unit that is there unless another thread is on its way to take it. |
| WaitHistory.WaitersExactly | rt-thread-test/rt-thread-test/rt-thread/src/ipc.c:121-247 | For every run of a queue: a thread waits exactly from a look that blocked until it is resumed as the first, its timer fires or all are sent away; none waits twice. |
| WaitHistory.InOrder | rt-thread-test/rt-thread-test/rt-thread/src/ipc.c:121-168 | For every run: a FIFO queue stands in the order in which its threads came, a PRIO queue by priority and among equals as they came, whatever takes, wakeups, timeouts and resets came before. |
| WaitHistory.FirstServed | rt-thread-test/rt-thread-test/rt-thread/src/ipc.c:190-203 | The thread that is resumed is the one that all the others come after. |
| WaitHistory.InFrontOrder | rt-thread-test/rt-thread-test/rt-thread/src/mempool.c:352-354 | A queue entered in front stands in the opposite order: the last to come is the first resumed. |
| Semaphore.StepKeeps | rt-thread-test/rt-thread-test/rt-thread/src/ipc.c:498-639 | Every section keeps: a positive value means no waiters, the value fits 16 bits, nobody waits twice; a release refused at 0xFFFF changes nothing. |
| Semaphore.RunKeeps | rt-thread-test/rt-thread-test/rt-thread/src/ipc.c:479-690 | So in every state of every run, with priorities that may change at any time, timeouts and resets. |
| Semaphore.Accounting | rt-thread-test/rt-thread-test/rt-thread/src/ipc.c:479-690 | In every run, counted by what the callers see: the value at the beginning or asked for by the last reset, plus the releases that succeeded since, equals the present value, plus the takes that succeeded at once, plus the releases that found a waiter. |
| Semaphore.ResultTells | rt-thread-test/rt-thread-test/rt-thread/src/ipc.c:498-639 | By that account a take succeeds at once if and only if a unit is left, and a release is refused if and only if the account is full and nobody waits. |
| Semaphore.WaitsInTurn | rt-thread-test/rt-thread-test/rt-thread/src/ipc.c:507-633 | In every run a thread waits exactly from a take that blocked until a release, its timer or a reset; the waiters stand in the order of the flag, and a release resumes the one that all others come after. |
| Semaphore.SemaphoreObject.TakeSection | rt-thread-test/rt-thread-test/rt-thread/src/ipc.c:490-549 | The code over the pointer ring of waiting threads is one step of that machine with its result: one unit taken, refused with -RT_ETIMEOUT, or suspended at its place in the ring. |
| Semaphore.SemaphoreObject.ReleaseSection | rt-thread-test/rt-thread-test/rt-thread/src/ipc.c:614-649 | One step: the first thread of the ring gets the unit and leaves it, or the value grows, or -RT_EFULL. |
| Semaphore.SemaphoreObject.TimeOutSection | rt-thread-test/rt-thread-test/rt-thread/src/thread.c:127-156 | One step: the thread at any place leaves the ring, ready and told -RT_ETIMEOUT. |
| Semaphore.SemaphoreObject.ResetSection | rt-thread-test/rt-thread-test/rt-thread/src/ipc.c:675-696 | One step: every thread leaves the ring with -RT_ERROR, and the value is the argument truncated to 16 bits. |
| Mutex.StepKeeps | rt-thread-test/rt-thread-test/rt-thread/src/ipc.c:937-1182 | Every section keeps ownership (value is 1 iff no owner iff hold is 0), a sorted queue that excludes the owner, and inheritance. |
| Mutex.RunKeeps | rt-thread-test/rt-thread-test/rt-thread/src/ipc.c:937-1182 | All of it holds in every state of every run of one mutex, with every interleaving and timeout. |
| Mutex.NetTakesHeld | rt-thread-test/rt-thread-test/rt-thread/src/ipc.c:937-1182 | In every run, counted by what the callers see (takes that returned success, plus grants by a release that takes the thread out of the queue, minus releases that returned success): the number of takes of the owner is the hold count and that of any other thread is 0. |
| Mutex.MutualExclusion | rt-thread-test/rt-thread-test/rt-thread/src/ipc.c:937-1182 | In every run at most one thread has taken the mutex, by this count, and not released it as often; it is the owner and its count is `hold`. |
| Mutex.TakeTells | rt-thread-test/rt-thread-test/rt-thread/src/ipc.c:937-991 | A take succeeds at once if and only if no other thread has taken the mutex, by this count, and the caller fewer than 255 times. |
| Mutex.ReleaseTells | rt-thread-test/rt-thread-test/rt-thread/src/ipc.c:1112-1120 | A release succeeds if and only if its caller has taken the mutex. |
| Mutex.ReturningGranted | rt-thread-test/rt-thread-test/rt-thread/src/ipc.c:1026-1040 | The threads that may return with success after waiting are exactly those a release took out of the queue and that have not returned yet. |
| Mutex.InheritsExactly | rt-thread-test/rt-thread-test/rt-thread/src/ipc.c:992-1000 | In every run the priority of the owner is exactly the most urgent of its own and of those of the threads that queued up since it got the mutex. |
| Mutex.WaitsInTurn | rt-thread-test/rt-thread-test/rt-thread/src/ipc.c:1001-1004 | In every run a thread waits exactly from a take that blocked until it gets the mutex or its timer fires; the waiters stand by their own priorities, and equals in the order in which they came. |
| Mutex.HandedToFirst | rt-thread-test/rt-thread-test/rt-thread/src/ipc.c:1133-1165 | A last release makes that waiter the owner which all the others come after. |
| Mutex.NoInversion | rt-thread-test/rt-thread-test/rt-thread/src/ipc.c:992-999 | In every run the owner is at least as urgent as every waiter, and every thread that is not the owner runs at its own priority, also after hand-offs and timeouts. |
| Mutex.WaitInheritance | rt-thread-test/rt-thread-test/rt-thread/src/ipc.c:992-1004 | A thread that queues up gives the owner its priority if that is the more urgent one, and no other thread another; the owner stays at least as urgent as all waiters. |
| Mutex.HandOffKeeps | rt-thread-test/rt-thread-test/rt-thread/src/ipc.c:1123-1165 | Hand-off: the old owner has its own priority again, the new owner is the most urgent waiter and needs no inheritance for those that remain. |
| Mutex.TimeOutKeeps | rt-thread-test/rt-thread-test/rt-thread/src/thread.c:127-160 | A waiter that times out leaves the invariant intact; the owner stays boosted. |
| Mutex.TakeMeansOwner | rt-thread-test/rt-thread-test/rt-thread/src/ipc.c:937-1046 | In every run a take that returns success, at once or after waiting, leaves its caller the owner, and the only thread with takes not released. |
| Mutex.MutexObject.TakeSection | rt-thread-test/rt-thread-test/rt-thread/src/ipc.c:937-1021 | One step of that machine; the hold overflow on a free mutex is unreachable. |
| Mutex.MutexObject.ReleaseSection | rt-thread-test/rt-thread-test/rt-thread/src/ipc.c:1112-1186 | One step; the overflow returns for hold and value are unreachable. |
| Event.PassQuiets | rt-thread-test/rt-thread-test/rt-thread/src/ipc.c:1466-1513 | One walk is enough although bits are cleared on the way: afterwards no thread left in the queue is satisfied by the bits left. |
| Event.PassGives | rt-thread-test/rt-thread-test/rt-thread/src/ipc.c:1472-1493 | Every thread resumed is one of the queue and gets all it wanted (AND) or a non-empty part of it (OR), out of bits set when the walk began. |
| Event.PassConsumesOnce | rt-thread-test/rt-thread-test/rt-thread/src/ipc.c:1504-1506 | What a CLEAR thread gets, no thread after it gets, and it is not left in the set. |
| Event.PassConserves | rt-thread-test/rt-thread-test/rt-thread/src/ipc.c:1504-1506 | The bits left and those given to CLEAR threads together are exactly the bits the walk began with. |
| Event.PassLeaves | rt-thread-test/rt-thread-test/rt-thread/src/ipc.c:1504-1506 | The bits left are exactly those it began with, without the ones given to CLEAR threads. |
| Event.PassPartitions | rt-thread-test/rt-thread-test/rt-thread/src/ipc.c:1466-1513 | Every thread of the queue is resumed or still waits, and none does both. |
| Event.StepKeeps | rt-thread-test/rt-thread-test/rt-thread/src/ipc.c:1455-1717 | Send, receive, timeout and reset keep: no suspended thread is satisfied by the set. |
| Event.RunKeeps | rt-thread-test/rt-thread-test/rt-thread/src/ipc.c:1455-1717 | So in every reachable state of every run, with priorities that may change at any time. |
| Event.ServedAtOnce | rt-thread-test/rt-thread-test/rt-thread/src/ipc.c:1592-1623 | A receiver served at once gets all it wanted (AND) or a non-empty part of it (OR); with CLEAR none of the bits it named stays set and the others stay as they were, without CLEAR all bits do. |
| Event.BitsExactly | rt-thread-test/rt-thread-test/rt-thread/src/ipc.c:1455-1717 | In every run the set holds exactly the bits sent and, since they were sent, neither given to a CLEAR receiver, at once or by a send, nor reset. |
| Event.ConsumedOnce | rt-thread-test/rt-thread-test/rt-thread/src/ipc.c:1504-1623 | In every run: of the bits a CLEAR receiver got, at once or by a send, a receiver served by a later section gets only those that a send set again in between. |
| Event.WaitersExactly | rt-thread-test/rt-thread-test/rt-thread/src/ipc.c:1463-1640 | In every run a thread waits exactly from a receive that blocked until a send serves it, its timer fires or a reset; none waits twice. |
| Event.WaitsInTurn | rt-thread-test/rt-thread-test/rt-thread/src/ipc.c:1640-1643 | In every run the queue that a send walks along stands in the order of the flag, also after sends that took threads out of its middle. |
| Event.EventObject.Walk | rt-thread-test/rt-thread-test/rt-thread/src/ipc.c:1463-1513 | The loop that removes threads from the queue it walks along, and clears bits while it does, computes that single pass. |
| Event.EventObject.SendSection | rt-thread-test/rt-thread-test/rt-thread/src/ipc.c:1435-1524 | One step of the machine; 0 is refused with -RT_ERROR, the -RT_EINVAL return is unreachable, and the threads resumed find in event_set what the pass gives them. |
| Event.EventObject.RecvSection | rt-thread-test/rt-thread-test/rt-thread/src/ipc.c:1581-1665 | One step: refused, received at once, -RT_ETIMEOUT or suspended; what is received at once are the bits named that were set, CLEAR leaves none of the bits named and all others, and otherwise no bit changes. |
| Event.EventObject.ResetSection | rt-thread-test/rt-thread-test/rt-thread/src/ipc.c:1705-1719 | One step: no waiters, no bits. |
| Mailbox.StepKeeps | rt-thread-test/rt-thread-test/rt-thread/src/ipc.c:2009-2405 | Send, urgent, receive, timeouts and reset keep both directions free of lost wakeups and the number of mails within the size. |
| Mailbox.RunKeeps | rt-thread-test/rt-thread-test/rt-thread/src/ipc.c:2009-2405 | So in every run from an empty mailbox, with priorities that may change at any time and stealing by non-blocking callers included. |
| Mailbox.NoneStranded | rt-thread-test/rt-thread-test/rt-thread/src/ipc.c:2009-2405 | In every run: while receivers wait, the threads that were resumed and have not looked again, counted from the sections alone, are at least as many as the mails there; while senders wait, at least as many as the free cells. |
| Mailbox.WaitsInTurn | rt-thread-test/rt-thread-test/rt-thread/src/ipc.c:2009-2405 | In every run receivers and senders wait exactly from a look that blocked until they are resumed, time out or a reset comes, and both queues stand in the order of the flag. |
| Mailbox.FirstInFirstOut | rt-thread-test/rt-thread-test/rt-thread/src/ipc.c:2080-2340 | In every run, if no urgent mail was put in since the last reset, the mails received since then followed by those still there are the mails sent since then, in order. |
| Mailbox.NothingLost | rt-thread-test/rt-thread-test/rt-thread/src/ipc.c:2080-2340 | In every run, with urgent mails and resets, every mail sent is received once, thrown away by a reset once, or still there. |
| Mailbox.UrgentNext | rt-thread-test/rt-thread-test/rt-thread/src/ipc.c:2178-2192 | An urgent mail that was put in is what the next receive takes out, unless a further urgent one or a reset comes first. |
| Mailbox.Mailbox.Push | rt-thread-test/rt-thread-test/rt-thread/src/ipc.c:2080-2096 | The cell at in_offset and the wrap at the end append to the contents; the overflow return is unreachable. |
| Mailbox.Mailbox.PushFront | rt-thread-test/rt-thread-test/rt-thread/src/ipc.c:2178-2192 | The step back, around the start if need be, prepends to the contents. |
| Mailbox.Mailbox.Pop | rt-thread-test/rt-thread-test/rt-thread/src/ipc.c:2328-2340 | The cell at out_offset is the front of the contents. |
| Mailbox.Mailbox.SendSection | rt-thread-test/rt-thread-test/rt-thread/src/ipc.c:2009-2112 | One step of the bounded deque, with its result. |
| Mailbox.Mailbox.UrgentSection | rt-thread-test/rt-thread-test/rt-thread/src/ipc.c:2169-2210 | One step; a full mailbox is refused with -RT_EFULL. |
| Mailbox.Mailbox.RecvSection | rt-thread-test/rt-thread-test/rt-thread/src/ipc.c:2253-2362 | One step; the value delivered is the front mail. |
| Mailbox.Mailbox.ResetSection | rt-thread-test/rt-thread-test/rt-thread/src/ipc.c:2389-2410 | One step: empty, all waiters gone. |
| MessageQueue.StepKeeps | rt-thread-test/rt-thread-test/rt-thread/src/ipc.c:2781-3252 | Every section and every copied byte, by any thread in any state, keeps: each slot is in exactly one of queue, free list and one thread's hands; queued slots carry the messages of the deque; no wakeup is lost. |
| MessageQueue.RunKeeps | rt-thread-test/rt-thread-test/rt-thread/src/ipc.c:2781-3252 | So in every run, however sends, receives, timeouts and resets interleave and priorities change. |
| MessageQueue.SlotCount | rt-thread-test/rt-thread-test/rt-thread/src/ipc.c:2501-2516 | Queue, free list and hands together always hold exactly max_msgs slots. |
| MessageQueue.LinkHasRoom | rt-thread-test/rt-thread-test/rt-thread/src/ipc.c:2869-2878 | The entry-overflow branches of send and urgent are unreachable. |
| MessageRuns.Delivery | rt-thread-test/rt-thread-test/rt-thread/src/ipc.c:3068-3174 | In every run a receive that gives its slot back holds exactly min(size asked for, msg_size) bytes, and the first of them are those of the message that was the front of the queue when this receive dequeued it, whole or as far as asked for, whatever other threads did meanwhile. |
| MessageRuns.LinkedWhole | rt-thread-test/rt-thread-test/rt-thread/src/ipc.c:2843-3020 | In every run the message that a send links is, whole, the one its caller gave when it grabbed the slot; an urgent one goes to the front, any other to the back. |
| MessageRuns.NeverStuck | rt-thread-test/rt-thread-test/rt-thread/src/ipc.c:2851-3168 | A thread in the middle of a copy can always go on with it or end it. |
| MessageRuns.FirstInFirstOut | rt-thread-test/rt-thread-test/rt-thread/src/ipc.c:2843-3174 | In every run, if no urgent message was linked since the last reset, the messages dequeued since then followed by those queued are the messages the senders gave, in the order of their links. |
| MessageRuns.NothingLost | rt-thread-test/rt-thread-test/rt-thread/src/ipc.c:2843-3252 | In every run, urgent messages and resets included, every message linked is dequeued once, dropped by a reset once, or still queued. |
| MessageRuns.UrgentNext | rt-thread-test/rt-thread-test/rt-thread/src/ipc.c:2987-3020 | An urgent message that was linked is what the next receive dequeues, unless a further urgent one or a reset comes first. |
| MessageRuns.NoneStranded | rt-thread-test/rt-thread-test/rt-thread/src/ipc.c:2781-3252 | In every run: while receivers wait, the threads resumed that have not looked again are at least as many as the messages queued; while senders wait, at least as many as the free slots. |
| MessageRuns.WaitsInTurn | rt-thread-test/rt-thread-test/rt-thread/src/ipc.c:2781-3252 | In every run receivers and senders wait exactly from a look that blocked until they are resumed, time out or a reset comes, and both queues stand in the order of the flag. |
| MessageQueue.HolderApart | rt-thread-test/rt-thread-test/rt-thread/src/ipc.c:2843-2852 | A slot being filled or drained is in neither list and in nobody else's hands. |
| MessageSlots.SlotsFit | rt-thread-test/rt-thread-test/rt-thread/src/ipc.c:2500-2513 | The max_msgs slots, counted with both fields cut to 16 bits, lie in the pool one after the other. |
| MessageSlots.SlotsMost | rt-thread-test/rt-thread-test/rt-thread/src/ipc.c:2500-2513 | They are as many as fit, if and only if the pool is smaller than 65536 slots. |
| MessageSlots.SlotHolds | rt-thread-test/rt-thread-test/rt-thread/src/ipc.c:2500-2501 | A slot holds the messages its queue was made for if and only if their size is at most 0xFFFC. |
| MessageSlots.MqObject.constructor | rt-thread-test/rt-thread-test/rt-thread/src/ipc.c:2500-2519 | rt_mq_init counts the slots of the pool and its loop gives the free list of all of them, last one first. |
| MessageSlots.MqObject.GrabSection | rt-thread-test/rt-thread-test/rt-thread/src/ipc.c:2756-2847 | First section of a send on the linked slots: one step of the protocol, with its result, -RT_ERROR for a message too long. |
| MessageSlots.MqObject.ClearNext | rt-thread-test/rt-thread-test/rt-thread/src/ipc.c:2849-2850 | Clearing the `next` of the slot in hand, with interrupts enabled, disturbs neither list nor any other thread. |
| MessageSlots.MqObject.LinkSection | rt-thread-test/rt-thread-test/rt-thread/src/ipc.c:2854-2891 | Second section: the tail slot is linked to the new one; entry is the length of the queue and tail its last slot. |
| MessageSlots.MqObject.LinkUrgentSection | rt-thread-test/rt-thread-test/rt-thread/src/ipc.c:2987-3020 | Second section of an urgent send: the slot becomes the head. |
| MessageSlots.MqObject.CopyInByte | rt-thread-test/rt-thread-test/rt-thread/src/ipc.c:2851-2852 | Each byte of the copy with interrupts enabled is a step of the protocol: it changes the sender's own slot only. |
| MessageSlots.MqObject.CopyOutByte | rt-thread-test/rt-thread-test/rt-thread/src/ipc.c:3167-3168 | Each byte of the copy out is a step, and the byte delivered is appended to what the receiver has. |
| MessageSlots.MqObject.DequeueSection | rt-thread-test/rt-thread-test/rt-thread/src/ipc.c:3074-3165 | First section of a receive: the head slot leaves the queue and is in the receiver's hands, with min(size, msg_size) bytes to copy; tail is cleared with the last one. |
| MessageSlots.MqObject.GiveBackSection | rt-thread-test/rt-thread-test/rt-thread/src/ipc.c:3170-3189 | Second section of a receive: the slot is the first free one again. |
| MessageSlots.MqObject.ResetSection | rt-thread-test/rt-thread-test/rt-thread/src/ipc.c:3224-3255 | The loop moves the whole queue to the free list, last slot first, and leaves slots in threads' hands alone. |
| MemPool.BlocksFit | rt-thread-test/rt-thread-test/rt-thread/src/mempool.c:107-117 | The blocks of a pool lie inside the region it was given, and one more would not. |
| MemPool.BlocksApart | rt-thread-test/rt-thread-test/rt-thread/src/mempool.c:123-128 | They do not overlap, headers included. |
| MemPool.StepWraps | rt-thread-test/rt-thread-test/rt-thread/src/mempool.c:110-115 | In 32 bits the divisor of the block count is 0 if and only if the block size lies above 0xFFFFFFF8 and up to 0xFFFFFFFC, and is block size plus header for all others; a block holds the bytes asked for if and only if the size is at most 0xFFFFFFFC. |
| MemPool.TerminatorInside | rt-thread-test/rt-thread-test/rt-thread/src/mempool.c:130-131 | Unless that divisor is 0, the terminator is written inside the region if and only if the region holds at least one block. |
| MemPool.AllocImage | rt-thread-test/rt-thread-test/rt-thread/src/mempool.c:387-398 | Taking the head of the in-band list and writing the pool's address over its link keeps the list of the remaining free blocks and the marks of all others. |
| MemPool.FreeImage | rt-thread-test/rt-thread-test/rt-thread/src/mempool.c:432-439 | Writing the list head into the header of a held block and making it the head keeps them too. |
| MemPool.OtherPool | rt-thread-test/rt-thread-test/rt-thread/src/mempool.c:387-398 | Writing a header of one pool leaves every other pool as it was. |
| MemPool.ClientWrite | rt-thread-test/rt-thread-test/rt-thread/src/mempool.c:406 | A client that writes inside its block leaves every pool as it was. |
| MemPool.HeldApart | rt-thread-test/rt-thread-test/rt-thread/src/mempool.c:387-406 | No two blocks handed out, of one pool or of two, share a byte, and none leaves its region. |
| MemPool.BlockCount | rt-thread-test/rt-thread-test/rt-thread/src/mempool.c:115-117 | block_free_count plus the number of blocks handed out is always block_total_count. |
| MemPool.StepKeeps | rt-thread-test/rt-thread-test/rt-thread/src/mempool.c:335-461 | Alloc, free and timeout keep: while threads wait for a block, at least as many resumed ones are on their way as blocks are free. |
| MemPool.RunKeeps | rt-thread-test/rt-thread-test/rt-thread/src/mempool.c:335-461 | So in every run. |
| MemPool.NoneStranded | rt-thread-test/rt-thread-test/rt-thread/src/mempool.c:335-461 | In every run, counted from the sections alone: while threads wait, those resumed that have not looked again are at least as many as the free blocks. |
| MemPool.WaitsInTurn | rt-thread-test/rt-thread-test/rt-thread/src/mempool.c:335-461 | In every run a thread waits exactly from a look that blocked until a free resumes it or its timer fires, and the last to come stands first. |
| MemPool.Pool.constructor | rt-thread-test/rt-thread-test/rt-thread/src/mempool.c:89-135 | A fresh pool has all its blocks in the list, in order, and touched only its region; a region without room for a block gives a pool without blocks and one stray word written a step below the region. |
| MemPool.Pool.AllocSection | rt-thread-test/rt-thread-test/rt-thread/src/mempool.c:335-406 | One look at the pool: the first free block, refused with -RT_ETIMEOUT, or suspended at the front of the waiters; the asserted head is never NULL and only its header word changes. |
| MemPool.Alloc | rt-thread-test/rt-thread-test/rt-thread/src/mempool.c:319-406 | Among several pools: the block handed out was free and now is held, the other pools do not notice. |
| MemPool.Free | rt-thread-test/rt-thread-test/rt-thread/src/mempool.c:415-461 | The header of a block handed out leads to the pool it came from, for any number of pools; the block becomes that pool's first free one, the first waiter is resumed, NULL is ignored. |
| NumberFormat.Divide | rt-thread-test/rt-thread-test/rt-thread/src/kservice.c:635-663 | One step of unsigned division by ten, or by sixteen for every other base. |
| NumberFormat.DigitsValue | rt-thread-test/rt-thread-test/rt-thread/src/kservice.c:742-749 | The digits evaluate back to the number, in base ten and base sixteen. |
| NumberFormat.OctalPrinted | rt-thread-test/rt-thread-test/rt-thread/src/kservice.c:653-660 | Asked for base eight the conversion prints the octal digits of a number if and only if it is below eight. |
| NumberFormat.OctalFails | rt-thread-test/rt-thread-test/rt-thread/src/kservice.c:653-660 | Eight itself is printed as 8 and not as 10. |
| NumberFormat.DigitsLength | rt-thread-test/rt-thread-test/rt-thread/src/kservice.c:742-749 | There are exactly as many digits as the number needs. |
| NumberFormat.DigitsCase | rt-thread-test/rt-thread-test/rt-thread/src/kservice.c:702-711 | The letters among them are capitals for %X and small letters for every other conversion. |
| NumberFormat.DigitsFit | rt-thread-test/rt-thread-test/rt-thread/src/kservice.c:700 | At most ten decimal or eight hexadecimal digits: `tmp` never overflows. |
| NumberFormat.Convert | rt-thread-test/rt-thread-test/rt-thread/src/kservice.c:742-749 | The loop fills `tmp` with the digits, last one first, within its bounds. |
| NumberFormat.SkipAtoi | rt-thread-test/rt-thread-test/rt-thread/src/kservice.c:665-672 | All digits at the position are consumed and nothing beyond the NUL is read; the result is their value wrapped to 32 bits. |
| NumberFormat.ScansPrinted | rt-thread-test/rt-thread-test/rt-thread/src/kservice.c:665-672 | Reading back a printed decimal number yields it if and only if it is at most INT_MAX. |
| NumberFormat.NumberLength | rt-thread-test/rt-thread-test/rt-thread/src/kservice.c:751-839 | The field is max(width, sign + max(digits, precision)) long if and only if the precision is not zero; with zero the digits are left out. |
| NumberFormat.NumberReadsBack | rt-thread-test/rt-thread-test/rt-thread/src/kservice.c:742-839 | With a nonzero precision the zeros and digits printed are worth the magnitude of the number, whatever width and flags. |
| NumberFormat.MagnitudeTells | rt-thread-test/rt-thread-test/rt-thread/src/kservice.c:717-730 | Sign and magnitude, or the magnitude modulo 2^32 for unsigned conversions, determine the number, the least one included. |
| NumberFormat.PrintNumber | rt-thread-test/rt-thread-test/rt-thread/src/kservice.c:682-841 | The printer puts out exactly blanks, sign, zeros, digits and blanks as specified, each where the 32-bit pointer is unless that is not below `end`, and returns the pointer after them. |
| Formatter.ParseFlags | rt-thread-test/rt-thread-test/rt-thread/src/kservice.c:896-909 | The flags after `%` are collected up to the first other character; the NUL stops it. |
| Formatter.Parse | rt-thread-test/rt-thread-test/rt-thread/src/kservice.c:896-963 | Flags, width, precision and qualifier of any directive, with the arguments they take. |
| Formatter.PutText | rt-thread-test/rt-thread-test/rt-thread/src/kservice.c:989-1019 | The loops put out exactly the field that `FieldFormat.TextField` is about, each character where the 32-bit pointer is. |
| Formatter.Expand | rt-thread-test/rt-thread-test/rt-thread/src/kservice.c:886-1101 | For every format and argument list the loop puts out exactly what the format expands to, each character where the 32-bit pointer is unless that is not below `end`. |
| Formatter.TruncatesExactly | rt-thread-test/rt-thread-test/rt-thread/src/kservice.c:876-1115 | For every text and every buffer not at address 0: whatever memory holds, the call leaves the first min(length, size - 1) characters and one NUL in the buffer and nothing else changed if and only if address plus length stays below 2^32 (up to 2^32 for a buffer without room). |
| Formatter.PointersTell | rt-thread-test/rt-thread-test/rt-thread/src/kservice.c:888-892 | The comparisons `str < end` tell the room left for every pointer of a call if and only if the last pointer does not wrap. |
| Formatter.WideField | rt-thread-test/rt-thread-test/rt-thread/src/kservice.c:911-925 | A failing input: a width of 0x30000001 on a sixteen-byte buffer at 0xD0000000 brings the pointer around. |
| Formatter.Vsnprintf | rt-thread-test/rt-thread-test/rt-thread/src/kservice.c:856-1115 | For every format, arguments, address and size: what becomes of all memory; the proper truncation whenever the pointer does not wrap; the result is the length of the whole text modulo 2^32 as an int, which is the length if and only if it is below 2^31. |
| Formatter.Vsprintf | rt-thread-test/rt-thread-test/rt-thread/src/kservice.c:1154-1157 | With the size -1 the wrap-around check lets a text that ends below the last byte of the address space through whole, and nothing else is touched. |
| Formatter.PlainFormat | rt-thread-test/rt-thread-test/rt-thread/src/kservice.c:1044-1101 | For every 32-bit argument %d and %i print sign and magnitude, %u, %x and %X the word in their base, and nothing else. |
| Formatter.PlainReadsBack | rt-thread-test/rt-thread-test/rt-thread/src/kservice.c:1044-1101 | The hexadecimal text is worth the word; skip_atoi reads the %u text back if and only if it is at most INT_MAX and the %d text of every non-negative int; after the minus sign of a negative one stand the digits of its magnitude. |
| FieldFormat.SpecParsed | rt-thread-test/rt-thread-test/rt-thread/src/kservice.c:896-963 | A directive with any flags in any order, any width and precision (left out, written, or `*`) and any qualifier, at any place of any format, is parsed to what it says: a negative `*` width means left alignment, a bare dot or a negative `*` precision means zero. |
| FieldFormat.TextField | rt-thread-test/rt-thread-test/rt-thread/src/kservice.c:989-1019 | For every such directive %s prints max(width, n) characters, n being the length of the string up to the width and a positive precision: the first n characters of the string at the right end with only blanks before them, or with left alignment at the left end with only blanks after them; the rest of the format follows. |
| FieldFormat.StringInField | rt-thread-test/rt-thread-test/rt-thread/src/kservice.c:989-1019 | "%5s" and "%-5s", for every width and string: exactly that many characters, the string at its end or beginning, only blanks on the other side; the whole string appears if and only if it is no longer than the width. |
| FieldFormat.CharField | rt-thread-test/rt-thread-test/rt-thread/src/kservice.c:966-987 | %c prints the low byte of its argument in a field likewise. |
| FieldFormat.NumberField | rt-thread-test/rt-thread-test/rt-thread/src/kservice.c:717-841 | For every such directive with d, i, u, x, X or o: blanks, sign, zeros, digits and blanks stand where they should: blanks in front unless `-` or `0` is given, zeros between sign and digits with `0` and for the precision, blanks behind only with `-`; the sign is a minus, or the one asked for by a flag. |
| FieldFormat.NumberLaidOut | rt-thread-test/rt-thread-test/rt-thread/src/kservice.c:751-839 | The same for the number printer alone, every base, width, precision and flag set. |
| FieldFormat.NarrowedIs | rt-thread-test/rt-thread-test/rt-thread/src/kservice.c:1076-1096 | With `h` the number printed is the low half of the argument, signed for d and i; otherwise the whole word. |
| FieldFormat.PointerField | rt-thread-test/rt-thread-test/rt-thread/src/kservice.c:1021-1036 | %p without a width prints at least eight hexadecimal digits, filled up with zeros. |
| FieldFormat.PercentField | rt-thread-test/rt-thread-test/rt-thread/src/kservice.c:1038-1042 | %% prints one percent sign and takes only the arguments of its sizes. |
| FieldFormat.LiteralText | rt-thread-test/rt-thread-test/rt-thread/src/kservice.c:886-894 | Every other character is printed as it is. |
| EthCopy.ChunksConcat | rt-thread-test/rt-thread-test/drivers/drv_eth.c:207-251 | Cutting a frame into buffer-size pieces loses nothing. |
| EthCopy.ChunksFit | rt-thread-test/rt-thread-test/drivers/drv_eth.c:223-245 | A frame needs at most n buffers if and only if it is at most n buffer sizes long. |
| EthCopy.Intact | rt-thread-test/rt-thread-test/drivers/drv_eth.c:207-251 | A frame no longer than the ring lies in its buffers from the first to the last byte. |
| EthCopy.Overwritten | rt-thread-test/rt-thread-test/drivers/drv_eth.c:223-245 | For every length beyond the ring there is a frame of that length that the transmission overwrites and that does not arrive. |
| EthCopy.DescriptorRing.SendBuffer | rt-thread-test/rt-thread-test/drivers/drv_eth.c:209-250 | The loop body for one packet buffer: it is all in the ring behind what was there, or the next descriptor belonged to the DMA. |
| EthCopy.DescriptorRing.Tx | rt-thread-test/rt-thread-test/drivers/drv_eth.c:206-251 | Transmission succeeds if and only if none of the descriptors the frame needs belongs to the DMA; then the length is the total length, and a frame that fits the ring is in its buffers, whatever the packet buffers were. |
| EthCopy.DescriptorRing.Fill | rt-thread-test/rt-thread-test/drivers/drv_eth.c:326-353 | Any chain of packet buffers is filled with the first bytes of the ring's buffers, and the ring is not changed. |
| EthCopy.DescriptorRing.Release | rt-thread-test/rt-thread-test/drivers/drv_eth.c:355-363 | Exactly the descriptors of the frame get their OWN bit set. |
| EthCopy.Loopback | rt-thread-test/rt-thread-test/drivers/drv_eth.c:207-353 | Reception into any chain undoes transmission from any chain of the same total length, as long as the frame fits the ring. |

## Left out

- The scheduler, timers and thread control are not modelled beyond what the objects need of them: suspending and resuming
  a thread changes its list and state, a changed priority takes effect at once, and a timeout may strike any waiter at any
  time. What runs between two interrupt-disabled sections is any other step.
- Tick arithmetic: whether time is left to wait after a resume is a parameter of the section.
- The semaphore is modelled over its pointer ring. The classes of the other IPC objects hold their wait lists as sequences
  of thread numbers; WaitList.dfy proves that every list operation of the kernel does to the ring what the machines do to
  these sequences. In `Event` the queue position is an index, not a node.
- Several mutexes at once: a release restores the priority recorded by that mutex alone, so inheritance is stated for one
  mutex. After a waiter times out the owner keeps the inherited priority until it releases; the invariant allows exactly
  that.
- Fairness of pool waiters: they queue at the front, so the last to come is the first resumed (`MemPool.WaitsInTurn`), and
  the first to come may starve.
- Semaphore.WaitsInTurn: the order of a PRIO queue is stated for priorities that do not change during the run, because the code sorts a thread in when it comes and never again; who waits, and FIFO order, are stated for all. Likewise in Event.WaitsInTurn, Mailbox.WaitsInTurn, MessageRuns.WaitsInTurn and WaitHistory.InOrder.
- Deleting and detaching objects, hooks, naming, debug output, statistics commands, console output.
- Heap: the `prev` of heap_end, which is left stale and never read, is not part of the image; a minimum size of used blocks
  is not claimed, since reallocation can cut a block below it; the order of the two updates of `used` inside reallocation
  is not visible; control blocks are objects, not bytes of the region.
- SmallMem.Heap.Alloc: does not model the search on a heap smaller than MIN_SIZE_ALIGNED for a size that would fit, because the code does not terminate there (`SearchStops`).
- SmallMem.Heap.Realloc: excludes the same heaps for the same reason.
- MemPool.Pool.constructor: excludes the block sizes for which the code divides by zero (`StepWraps`); of the stray terminator it models the part that falls into the memory modelled.
- MessageSlots.MqObject.constructor: takes slots by number, with their `next` words and payloads in two arrays; `SlotsFit` places them in the pool, and in-band bytes are modelled for the heap and the pools only. Message sizes for which the divisor of the slot count wraps to 0 do not occur: the 16-bit msg_size comes first.
- Mailbox.Mailbox.SendSection: counts the mails in unbounded numbers with the size at most 0xFFFF; a larger size does not fit the 16-bit field.
- Formatter.Vsnprintf: arguments are a list of words and strings, and one that is missing or of another kind reads as 0 or "(NULL)"; format and strings are values, so a call that overwrites them is not modelled; how va_arg finds arguments, and signed overflow in widths near the limits of int, are not modelled. The `#` flag is parsed and ignored, as the code compiles it out, and the 64-bit variants are compiled out too.
- EthCopy.DescriptorRing.Tx: ends before the hand-over to the DMA; descriptors form a ring of buffers of one size, chains of packet buffers are sequences, and registers, locks and the underflow recovery are not modelled.
- EthCopy.Loopback: reads the frame back from the ring it was written to; the wire is not part of this model.
- SMP; all other drivers; scripts and build tools.
