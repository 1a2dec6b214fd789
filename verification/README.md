# Fiasco kernel: allocators, cross-CPU protocols and debugger data structures in Dafny

This project models the parts of the Fiasco microkernel in which correctness depends on more than one
function, and proves what they promise.

| files | part of the kernel |
|---|---|
| `AsidSpec`, `AsidProtocol`, `AsidSafety`, `AsidClash`, `AsidOwners`, `AsidRoom`, `AsidExhaust`, `AsidStalePlant`, `AsidFlush`, `AsidAllocator` | ASID allocation with generation roll-over |
| `Dyadic`, `BuddySpec`, `BuddyBitmap`, `BuddyBytes`, `BuddyHistory`, `BuddyAllocator` | the buddy allocator |
| `Helping`, `HelpingResults` | helping a lock holder across CPUs |
| `CpuCall`, `CpuCallSafety`, `CpuCallResults`, `CpuCallLive`, `CpuCallRounds`, `CpuCallAsync` | calling a function on many CPUs |
| `Drq`, `DrqSafety`, `DrqPosts`, `DrqWaits` | deferred requests between contexts |
| `IdAlloc`, `IdAllocResults` | round-robin ID allocation with eviction |
| `BootAlloc` | the best-fit boot-time allocator |
| `TraceBuffer` | the debugger's trace buffer |
| `Base64` | the core dump's streaming base64 encoder |
| `CpuSet` | CPU sets with granularity and offset |
| `Multiples`, `Wrappers` | arithmetic by repeated subtraction, and the optional value |

`dafny verify dfyconfig.toml` checks everything.

## How the models are built

Code that changes a structure in place is a class whose methods are proved against functions on values:
`AsidAllocator`, `BuddyAllocator`, `BootAlloc`, `Tbuf`, `Encoder`. Protocols that several CPUs run at once
are state machines: a state, the steps that each CPU can make (one access to shared memory each), and
theorems about every finite run. `AsidProtocol.LockedPathIsAllocAsid` ties the machine's locked path to
the function that the class `AsidAllocator` implements.

Three kinds of results go together for a protocol. Invariants say what never goes wrong in any run. Results
on continuations say that something good can still happen: a call can always return, a wait can end, an
allocation succeeds, each with the exact condition where there is one. And for each operation that runs
without interruption the state that it leaves is stated in full.

Results that the code does not meet without a condition:

- **ASIDs, uniqueness.** A CPU that passes the generation test and is then overtaken by roll-overs still
  exchanges its outdated tuple into its `active` word. A roll-over that reads such a stale tuple carries
  it on as reserved, and two spaces can end up with one number: `StalePlantBreaksUniqueness` is a run of
  two CPUs, three numbers and five spaces. What matters is whether the roll-over ends in a clash, that is
  with reserved tuples of two spaces, neither the one it runs for, that have the same number.
  `RollOverIsSafeExactlyWithoutClash` shows that the end of a roll-over keeps numbers unique in all
  continuations if and only if there is no clash, and `RunsAreSafe` covers every run that avoids clashes.
  `RunsWithoutStalePlants` shows that a clash needs a stale plant: a tuple, older than the generation
  being retired, that a CPU still waiting for the lock has exchanged in, even after the roll-over has
  started.
- **ASIDs, owners.** The tuple reserved for a CPU that runs a space after a roll-over is that space's tuple
  (`RunsAreSafe`). That every reserved tuple is some space's tuple is false: `OwnPlantLosesOwner` is a run,
  without stale plants, in which a CPU plants a tuple and then rolls over for the same space.
  `OwnerLostExactlyIfOrphaned` names the only steps that leave a reserved tuple without a space, and
  `RunsKeepOwners` covers every run without them.
- **ASIDs, room.** With more spaces than numbers, numbers stay in range if and only if there are more of
  them than CPUs (`InRangeExactlyIfRoomy`).
- **ASIDs, marking.** `new_asid` is documented to return a number that is marked in the bitmap. `find_next`
  does not set the bit: the number is marked if and only if the space got its own number back
  (`NewAsidMarkedExactlyIfReclaimed`). The search index that moves past the number has the same effect.
- **Helping.** `switch_exec_locked` and `switch_exec_helping` take the `Running` token and then return
  `Failed` if the thread is not ready, without giving the token back. The token is lost if the state word
  is taken and no CPU has the token. `LostWhen` shows that this comes about exactly if the holder of the
  token finds the thread not ready, `LostHappens` is such a run, and `NeverExecutedExactlyIfLost` shows that
  the thread is never executed again if and only if the token is lost.
- **Cross-CPU calls.** `cpu_call_many` is documented to wait until the function has finished on all
  selected CPUs whatever the mode. `CompletesExactlyWhen` shows that this is so if and only if the mode
  is synchronous or the caller cannot be off any selected online CPU, that is, it stays on the only one or
  none is selected.
- **Deferred requests.** All requests of a context share its wait flag, and the answer to any of them clears
  it. Posting can therefore make a handler run twice (`HandlerRunsTwice` is a run), enqueue a request twice,
  or let a wait end before the handler has run, even for a request that is itself at rest
  (`OtherAnswerEndsWait` is a run with two requests). `PostKeepsPromiseExactlyWhenSafe` shows for every post
  of any request, waiting or not, that nothing goes wrong in any continuation if and only if: the request
  is on no queue, whoever has it only hands over an old answer, the owner is not waiting for a handler that
  has not run, and, if the post waits for another context, no request of the owner is queued or in anybody's
  hands. If all posts wait and go to other contexts, that is always so (`WaitingRunsAreGood`).
- **Deferred requests, waiting.** A handler may decline to answer, and then its poster waits for ever.
  `WaitCanEndExactlyUnlessQuiet` shows that a wait can still end if and only if some request of the owner is
  queued or in somebody's hands.
- **Base64.** `flush` is meant to terminate the last line always. It does so unless the last line consists
  of a padded group only, that is unless the number of bytes is 1 or 2 more than a multiple of 57
  (`LastLineTerminated`).

## Model

| member | source | states |
|---|---|---|
| AsidSafety.RunsAreSafe | src/kern/asid_alloc.h:208-473 | in every run in which no roll-over ends in a clash: spaces whose tuples are current have pairwise different numbers; every stored number is in range; whenever the lock is free a reserved number has its bit set; the spaces a CPU ran since its last flush were numbered one-to-one; the number a CPU runs under is its space's own and no other space's current number; and the tuple reserved for a CPU that lost its active one is the tuple of the space it runs |
| AsidSafety.NumberSurvivesRollOvers | src/kern/asid_alloc.h:282-365 | while a CPU stays with a space, any number of roll-overs by others leaves that space its number, and no other live space gets it |
| AsidSafety.RegainsNumber | src/kern/asid_alloc.h:354-448 | when a CPU allocates again for the space it runs, that space gets the number it runs under, without a further roll-over |
| AsidSafety.StepInv | src/kern/asid_alloc.h:311-473 | every step of every CPU keeps the invariant behind the two results above |
| AsidStalePlant.StalePlantBreaksUniqueness | src/kern/asid_alloc.h:410-473 | there is a run, with enough numbers for the CPUs, after which two spaces have the same current number |
| AsidRoom.NewAsidSucceeds | src/kern/asid_alloc.h:354-385 | with more usable numbers than CPUs a new number is always in range and of the current generation; a space whose tuple is reserved gets its number back, and any other one gets a number that nobody has reserved and that lies behind all numbers handed out in this generation |
| AsidRoom.NewAsidMarkedExactlyIfReclaimed | src/kern/asid_alloc.h:338-385 | the returned number has its bit set if and only if the space got its own number back |
| AsidExhaust.InRangeExactlyIfRoomy | src/kern/asid_alloc.h:311-385 | with more spaces than usable numbers: in all runs without clashes every number is in range if and only if there are more usable numbers than CPUs |
| AsidExhaust.NumberOutOfRange | src/kern/asid_alloc.h:368-385 | otherwise a run from the start in which a space is given the number past the last one |
| AsidClash.RollOverIsSafeExactlyWithoutClash | src/kern/asid_alloc.h:311-385 | the end of a roll-over keeps numbers unique in all continuations if and only if no two spaces other than the roller's have reserved tuples with one number |
| AsidClash.ClashBreaksUniqueness | src/kern/asid_alloc.h:354-365 | after a clash the rolling CPU can switch to both spaces, and both reclaim the number |
| AsidClash.RunsWithoutStalePlants | src/kern/asid_alloc.h:410-448 | a run in which no roll-over reads a stale plant has no clash |
| AsidOwners.OwnerLostExactlyIfOrphaned | src/kern/asid_alloc.h:208-336 | reserved tuples stay tuples of spaces, except if a roll-over renumbers its own space after picking up that space's plant, or picks up a plant its space has left behind |
| AsidOwners.RunsKeepOwners | src/kern/asid_alloc.h:208-473 | in every run without clashes and without such steps every reserved tuple is some space's tuple |
| AsidOwners.OrphanIsPlanted | src/kern/asid_alloc.h:311-336 | a roll-over picks up a tuple that is no space's only from a CPU that has planted it, or from itself |
| AsidStalePlant.OwnPlantLosesOwner | src/kern/asid_alloc.h:410-448 | a run without stale plants after which a reserved tuple is no space's |
| AsidProtocol.LockedPathIsAllocAsid | src/kern/asid_alloc.h:427-448 | the locked steps of the state machine, run without interruption, do what the sequential allocation function says, flush and numbering log included |
| AsidFlush.AllocMeans | src/kern/asid_alloc.h:354-448 | one allocation, case by case: a current tuple stays; an outdated one that is marked and reserved keeps its number and all its reservations are renewed; otherwise the space gets the least clear number from the search index on; a roll-over runs exactly if there is none, and then the marks are exactly the numbers that were active or still reserved, all other CPUs lose their active tuple and must flush; a flush is asked for exactly if one was pending or a roll-over ran |
| AsidFlush.RollFromIs | src/kern/asid_alloc.h:311-336 | after the roll-over's loop each CPU has its active tuple reserved, or else the one it had, nothing is active, and the marked numbers are exactly the reserved ones |
| AsidFlush.FlushExactlyAfterRollOver | src/kern/asid_alloc.h:311-448 | between two locked allocations of a CPU, over any run: the second one flushes its TLB if and only if a roll-over has ended in between or ends with it |
| AsidFlush.PendingExactlyAfterRollOver | src/kern/asid_alloc.h:311-336 | until then the CPU has a flush pending if and only if one was or a roll-over has ended, and its TLB is not flushed |
| AsidFlush.NothingPendingAtStart | src/kern/asid_alloc.h:153-181 | at the start no flush is pending, nothing is active, reserved or marked, and the generation is one |
| AsidFlush.FastPath | src/kern/asid_alloc.h:394-473 | the lock-free path without interruption: a current tuple is made active, and that is all if the CPU's active tuple was valid; otherwise the CPU goes for the lock |
| AsidAllocator.AsidAllocator.constructor | src/kern/asid_alloc.h:153-181 | a new allocator is in generation one with nothing active, reserved, marked or pending, and searches from the first usable number |
| AsidAllocator.AsidAllocator.FindNextFree | src/kern/asid_alloc.h:164-176 | the first clear bit from the search index on, or the limit; the index moves past it |
| AsidAllocator.AsidAllocator.CheckAndUpdateReserved | src/kern/asid_alloc.h:282-295 | true exactly if some CPU has the tuple reserved, and then all those CPUs get the updated tuple |
| AsidAllocator.AsidAllocator.RollOver | src/kern/asid_alloc.h:311-336 | every CPU has its active tuple reserved, or else the one it had reserved; nothing is active; exactly the reserved numbers are marked; every CPU has to flush; the search starts again |
| AsidAllocator.AsidAllocator.NewAsidFor | src/kern/asid_alloc.h:354-385 | the number and the new state are those of the function that the proofs are about |
| AsidAllocator.AsidAllocator.AllocLocked | src/kern/asid_alloc.h:427-448 | the space gets a current tuple in range, which becomes the CPU's active one; the result is true if and only if a flush was pending for the CPU or the generation has changed, and none is pending afterwards; the generation changes if and only if the tuple was outdated, not reserved, and every number from the search index on was marked |
| AsidAllocator.AsidAllocator.GetOrAlloc | src/kern/asid_alloc.h:465-473 | afterwards the CPU's active tuple is the space's and is current; if the tuple was current and the CPU's active one valid, nothing else changes and no flush is asked for; otherwise one is asked for if and only if it was pending or the generation has changed |
| BuddyAllocator.BuddyAllocator.constructor | src/kern/buddy_alloc.h:98-111 | the managed range is all whole units from the base address up to the last address, the bitmap has room for them, and nothing is managed yet |
| BuddyAllocator.BuddyAllocator.UserWrite | src/kern/buddy_alloc.h:19-29 | an owner writing its memory, and with it the words where headers would be, does not disturb the allocator |
| BuddyAllocator.BuddyAllocator.BuddyTest | src/kern/buddy_alloc.h:51-72 | bit set and header index matching at the buddy's start hold exactly if the buddy is free, whatever bits are stale |
| BuddyAllocator.BuddyAllocator.FindBuddy | src/kern/buddy_alloc.h:51-72 | the buddy exactly if it is free, and the start of the enclosing block |
| BuddyAllocator.BuddyAllocator.Split | src/kern/buddy_alloc.h:74-86 | lists, bits and headers after the loop are those of linking and marking each upper half |
| BuddyAllocator.BuddyAllocator.Coalesce | src/kern/buddy_alloc.h:131-151 | the block's memory and nothing else becomes free, no free buddies remain, and the block that it has grown into is in front of its list |
| BuddyAllocator.BuddyAllocator.FreeBlock | src/kern/buddy_alloc.h:113-152 | an outstanding or new block becomes free, its bit was clear before, and the listed bytes grow by its size |
| BuddyAllocator.BuddyAllocator.NotMarked | src/kern/buddy_alloc.h:117-117 | the bit of a block that may be freed is clear, as the source asserts |
| BuddyAllocator.BuddyAllocator.Free | src/kern/buddy_alloc.h:113-152 | for the address and the size of an outstanding block, exactly the bytes of its region become free; the block that it has grown into is in front of its list; it is a step of the histories |
| BuddyAllocator.BuddyAllocator.Alloc | src/kern/buddy_alloc.h:179-205 | null exactly if no naturally aligned region of the size class is wholly free, and then nothing changes; otherwise an address that is a multiple of the block size, whose bytes up to that size were all free and alone stop being free; the block is the low end of the front block of the first list that is not empty, and the rest of that block is listed in halves |
| BuddyAllocator.BuddyAllocator.OutstandingApart | src/kern/buddy_alloc.h:179-205 | no byte belongs to the regions of two outstanding blocks |
| BuddyAllocator.BuddyAllocator.OutstandingNotFree | src/kern/buddy_alloc.h:179-205 | and none of their bytes is free |
| BuddyAllocator.BuddyAllocator.OrderFor | src/kern/buddy_alloc.h:181-183 | the least order whose blocks are large enough |
| BuddyAllocator.OrderIsLeast | src/kern/buddy_alloc.h:181-183 | no smaller order is large enough |
| BuddyAllocator.BuddyAllocator.AddMem | src/kern/buddy_alloc.h:154-177 | exactly the whole units of the given memory become free |
| BuddyAllocator.BuddyAllocator.Avail | src/kern/buddy_alloc.h:258-267 | the number of bytes of free memory |
| BuddySpec.FreeRegionIsInOneBlock | src/kern/buddy_alloc.h:113-152 | if no two free buddies coexist, a wholly free aligned region lies inside one free block |
| BuddySpec.FreeBlocksDependOnMemoryOnly | src/kern/buddy_alloc.h:113-205 | the same free memory means the same free blocks |
| BuddySpec.BuddyStartIsNoInterior | src/kern/buddy_alloc.h:51-72 | the start of a block's buddy is never strictly inside another block, so that a stale bit there is never read |
| BuddyHistory.FreeBlocksForgetHistory | src/kern/buddy_alloc.h:113-205 | two runs from one state that leave the same blocks outstanding leave the same blocks free |
| BuddyHistory.FreeingAllRestores | src/kern/buddy_alloc.h:113-205 | freeing everything in any order restores the free blocks |
| BuddyBitmap.BuddyBitsFit | src/kern/buddy_alloc.h:283-298 | for all address bounds the computed number of bits exceeds the number of units, or equals it and the units fill maximal blocks |
| BuddyBitmap.BaseIsNearest | src/kern/buddy_alloc.h:109-111 | the base address is the nearest multiple of the largest block size that is not above the first address |
| BuddyBitmap.BitCountIs | src/kern/buddy_alloc.h:283-298 | there are as many bits as it takes units to cover the memory, and one more exactly if the memory is not a multiple of the largest block |
| BuddyBitmap.IndicesInBitmap | src/kern/buddy_alloc.h:51-86 | every block's start and its buddy's start are inside such a bitmap |
| BuddyBitmap.ExtraBitIsUsed | src/kern/buddy_alloc.h:283-298 | with one unit of memory the extra bit is the one the buddy test reads |
| BuddyBitmap.MaskedAddress | src/kern/buddy_alloc.h:54-62 | masking an address gives the enclosing block's address |
| BuddyBytes.AddressIsMultiple | src/kern/buddy_alloc.h:54-62 | every block's address is a multiple of its size |
| BuddyBitmap.QuotientDivides | src/kern/buddy_alloc.h:68-68 | counting units by repeated subtraction is the source's division |
| BuddyBitmap.AddedUnits | src/kern/buddy_alloc.h:154-177 | the units that are added, computed by rounding and dividing as in the source, are exactly those whose bytes all lie in the given memory |
| Helping.RunsAreExclusive | src/kern/context_mp.h:38-130 | in every run at most one CPU executes the thread; on a foreign CPU, or with a lock held, the state is `Running` and that CPU is the only one with the token |
| Helping.StepInv | src/kern/context_mp.h:177-217 | every access by every CPU keeps the invariant behind it |
| Helping.RunsCountLocks | src/kern/switch_lock.h:149-250 | the lock count is the number of locks held, except between a lock word's change and the count's |
| Helping.LostWhen | src/kern/context.cc:147-219 | the state word gets taken with nobody holding the token exactly if the holder of the token finds the thread not ready |
| Helping.LostHappens | src/kern/context.cc:147-177 | a run in which it is lost |
| Helping.NeverExecutedExactlyIfLost | src/kern/context.cc:147-219 | in every run: no continuation ever executes the thread if and only if the token is lost |
| Helping.ExecutedFrom | src/kern/context_mp.h:187-217 | from every other state there is a run that executes the thread: the holder of the token finishes, or the home CPU dispatches |
| Helping.LostForever | src/kern/context.cc:147-219 | once lost, the token stays lost and nobody executes the thread |
| HelpingResults.HelpsExactlyIfLockHeld | src/kern/context_mp.h:187-217 | from any state, a CPU that calls `need_help` for a lock and is not interrupted gets to execute the thread if and only if the state is `NotRunning`, the thread has locks and holds that one; otherwise everything is as before |
| HelpingResults.DispatchesExactlyIfFree | src/kern/context.cc:147-177 | the home CPU gets to execute the thread if and only if the state is `NotRunning`, and takes the token if and only if the thread has locks; otherwise everything is as before |
| HelpingResults.AcquiresFreeLock | src/kern/switch_lock.h:318-340 | taking a free lock adds it, counts it and leaves the state at `Running` |
| HelpingResults.LosesTakenLock | src/kern/switch_lock.h:318-340 | losing the race for a lock leaves everything as before |
| HelpingResults.ReleasesLock | src/kern/switch_lock.h:239-250 | releasing takes the lock out and counts it down; the last lock on the home CPU gives the token back |
| HelpingResults.LeavingGivesTokenBack | src/kern/context_mp.h:38-130 | leaving the thread changes `Running` to `NotRunning` and nothing else, and in every reachable state that is giving back the leaving CPU's own token |
| HelpingResults.TidyingFindsNothing | src/kern/switch_lock.h:342-360 | the check after scheduling, for a thread at home without locks, never leaves `Running` and in reachable states finds nothing to do |
| CpuCallSafety.StepInv | src/kern/cpu_call.h:45-309 | every step keeps: for each CPU, runs plus queued plus taken requests equal what is owed to it; a slot is on at most one queue |
| CpuCallResults.SynchronousReturn | src/kern/cpu_call.h:269-309 | when a synchronous call has returned, every selected online CPU has run the function exactly once, no other CPU has, and no queue and no handler refers to the caller's objects any more; for any number of CPUs and slots, and with the caller changing its CPU |
| CpuCallResults.ReturnMeansTaken | src/kern/cpu_call.h:67-74 | in either mode a returned call means that each selected online CPU has run the function or has taken the request |
| CpuCallResults.AtMostOnce | src/kern/cpu_call.h:158-177 | at every moment no CPU has run the function twice, and no unselected or offline CPU has run it |
| CpuCallResults.OneQueue | src/kern/cpu_call.h:135-156 | a `Cpu_call` is on one queue at most, once, with its function set |
| CpuCallResults.ReusedOnlyWhenDone | src/kern/cpu_call.h:215-253 | the source's assertions hold: a slot is done when reused, not queued when enqueued, and done after being taken back from an offline CPU |
| CpuCallResults.WaitedForIsServed | src/kern/cpu_call.h:102-116 | while the caller waits for a slot, an online CPU has it and can go on |
| CpuCallLive.CanAlwaysReturn | src/kern/cpu_call.h:215-309 | from every state of every run, in either mode and with the caller on any of its CPUs, there is a continuation of its own and the handlers' steps after which the call has returned |
| CpuCallLive.SynchronousCallSucceeds | src/kern/cpu_call.h:255-309 | in synchronous mode that continuation ends with exactly one run on each selected online CPU and none elsewhere |
| CpuCallLive.HandleAll | src/kern/cpu_call.h:158-177 | `handle_requests` without interruption: the queue is empty, the function has run once for each of the caller's requests on it, their waits have ended, and nothing else has changed |
| CpuCallRounds.CallHere | src/kern/cpu_call.h:215-224 | a call for the caller's own CPU runs the function there and nothing else |
| CpuCallRounds.CallQueues | src/kern/cpu_call.h:226-248 | for an online CPU that does not get to it, the request is last on that CPU's queue and the object is busy |
| CpuCallRounds.CallWithdraws | src/kern/cpu_call.h:226-241 | for an offline CPU, the queue is as before and the object is free again |
| CpuCallRounds.CallServed | src/kern/cpu_call.h:226-253 | for an online CPU that handles its queue before the caller looks, the function has run there once and the object is free |
| CpuCallRounds.FirstLoopGoesOn | src/kern/cpu_call.h:275-287 | the first loop goes on with the same object unless it is busy, then with the next one, and ends when there is none |
| CpuCallRounds.FindsFirstDone | src/kern/cpu_call.h:102-109 | the second loop uses the first object that is done |
| CpuCallRounds.SearchStartsAgain | src/kern/cpu_call.h:294-304 | and looks again from the first one if none is |
| CpuCallRounds.EmptyMaskReturns | src/kern/cpu_call.h:271-273 | the call returns at once if and only if no CPU is selected |
| CpuCallAsync.CompletesExactlyWhen | src/kern/cpu_call.h:255-309 | the documented completion holds if and only if the call is synchronous or the caller cannot be off any selected online CPU |
| CpuCallAsync.EarlyReturn | src/kern/cpu_call.h:67-74 | for every other call a run that returns before a selected CPU has run the function |
| DrqSafety.GuardedRunsAreGood | src/kern/context_drq.h:83-178 | for any number of requests of one owner, if every post is safe: no handler runs twice for one post, no queued request is enqueued, and a waiting poster goes on only after the handler in another context has run; for all races and migrations |
| DrqSafety.WaitingRunsAreGood | src/kern/context_mp.h:249-332 | if all posts of all requests of the owner wait and go to other contexts, all that holds |
| DrqSafety.WaitingIsGuarded | src/kern/context_drq.h:109-113 | then a wait ends only with all requests at rest, so that every post is safe |
| DrqSafety.StepInv | src/kern/drq_queue.h:19-53 | every step of the poster and the queue handlers keeps the invariant: each request is in one place, and while the owner waits for a handler that has not run no other request is on its way |
| DrqPosts.PostKeepsPromiseExactlyWhenSafe | src/kern/context_drq.h:83-178 | for every post of any request, waiting or not, to any context: it keeps those promises in all continuations if and only if it is safe |
| DrqPosts.WaitingPostNeedsQuiet | src/kern/context_drq.h:83-178 | for a post that waits for another context that is: no request of the owner is queued or in anybody's hands, so that no other answer can come |
| DrqPosts.OtherPostsNeedOwnRequest | src/kern/context_drq.h:83-178 | for a post that does not wait, made while the owner does not wait: whoever has the request itself only hands over an old answer |
| DrqPosts.HandlerRunsTwice | src/kern/context_drq.h:98-178 | a run of two posts that do not wait, in which the handler of the second runs twice and that of the first never |
| DrqPosts.OtherAnswerEndsWait | src/kern/context_drq.h:132-178 | a run in which the answer to one request ends the wait for another one, which was at rest when posted and whose handler has not run |
| DrqWaits.WaitsCanEnd | src/kern/context_drq.h:83-178 | in every run whose posts are safe, with at least one CPU that handles queues: the owner's wait can end if and only if some request of the owner is queued or in somebody's hands |
| DrqWaits.WaitCanEndExactlyUnlessQuiet | src/kern/context_drq.h:109-178 | the same for every state that meets the invariant; if it cannot end, the handler that the owner waits for in another context has run, so it has not answered |
| DrqWaits.LocalPost | src/kern/context_mp.h:249-256 | a post to a context at home on this CPU runs its handler here once, and the owner does not wait if the handler answers |
| DrqWaits.RemotePost | src/kern/context_mp.h:258-288 | a post to a context that is at home elsewhere puts the request on its queue and does nothing else |
| DrqWaits.RequestIsHandled | src/kern/context_drq.h:149-178 | the handler of a queued request runs once, and its answer, if any, is on the owner's queue |
| DrqWaits.AnswerArrives | src/kern/context_drq.h:132-147 | an answer taken off the owner's queue ends its wait and does nothing else |
| IdAlloc.RunsKeepIdsApart | src/kern/id_alloc.h:25-71 | in every run, whatever owners can be replaced at each moment: no two owners that have not given up their IDs share one, and the slot of such an owner names it unless it is being evicted or just entered |
| IdAlloc.FreeReturnsAfterReset | src/kern/id_alloc.h:61-71 | once `free` has returned, no slot names the owner and no eviction is about to reset it |
| IdAlloc.DeadIsLeftAlone | src/kern/id_alloc.h:25-71 | and no step changes it again |
| IdAlloc.SearchIsBounded | src/kern/id_alloc.h:30-52 | if a slot is empty, freed or replaceable at the start and its owner stays replaceable, an allocation reads at most as many slots as there are, however frees interleave |
| IdAlloc.SearchStartsInTime | src/kern/id_alloc.h:30-52 | such a slot at the start of an allocation meets the condition of that bound |
| IdAlloc.SearchGoesOn | src/kern/id_alloc.h:30-52 | if no slot is usable, every run of the allocation alone stays in the search, as long as no more owners become replaceable |
| IdAllocResults.AllocationGivesId | src/kern/id_alloc.h:55-57 | in every reachable state, the step that ends an allocation leaves its owner with an ID whose slot names it |
| IdAllocResults.AllocationTakesFirstUsable | src/kern/id_alloc.h:25-58 | without interruption an allocation takes the first slot from the search position on that is empty, freed or replaceable; its owner has that ID, the slot names it, the victim's ID is invalid, the search position is behind the slot, and nothing else has changed |
| IdAllocResults.AllocationKeepsId | src/kern/id_alloc.h:27-28 | an owner with a valid ID keeps it, and nothing changes |
| IdAllocResults.AllocationSucceedsExactlyIfUsable | src/kern/id_alloc.h:25-58 | an allocation can by itself end with an ID for its owner if and only if some slot is empty, freed or replaceable |
| IdAllocResults.FreeMarksSlot | src/kern/id_alloc.h:61-68 | a free without interruption marks the owner's slot as freed, and that is all |
| IdAllocResults.FreeCanReturn | src/kern/id_alloc.h:61-71 | from every reachable state a free can return: the eviction that it waits for can finish |
| BootAlloc.BootAlloc.Alloc | src/kern/boot_alloc.cc:12-72 | null exactly if no free block is large enough and the kernel allocator has none; otherwise the start of the first of the smallest sufficient blocks, or of a new chunk at the front of the list if there is none; that block is cut by the rounded size in place, or goes if no more than a header is left; the region is recorded and everything stays disjoint and accounted for |
| BootAlloc.BootAlloc.BestFit | src/kern/boot_alloc.cc:20-26 | the first of the smallest sufficient blocks |
| BootAlloc.BootAlloc.NewChunkSize | src/kern/boot_alloc.cc:30-35 | the least power of two times 1024 that is enough |
| BootAlloc.ChunkFits | src/kern/boot_alloc.cc:30-35 | that size is a multiple of the header and is 1024 or less than twice the size asked for |
| BootAlloc.Taken | src/kern/boot_alloc.cc:52-69 | cutting a region off a block keeps all memory disjoint and inside chunks, and conserved as rounded regions, free blocks and tails of at most one header |
| BootAlloc.AddChunk | src/kern/boot_alloc.cc:37-49 | so does adding a chunk |
| BootAlloc.Cut | src/kern/boot_alloc.cc:53-55 | the rounded end never lies behind the block's end |
| BootAlloc.HandedOutApart | src/kern/boot_alloc.cc:12-72 | regions handed out are pairwise disjoint |
| BootAlloc.HandedOutNotFree | src/kern/boot_alloc.cc:12-72 | and disjoint from all free blocks |
| TraceBuffer.Tbuf.Entries | src/jdb/jdb_tbuf.cc:65-78 | counting positions gives the number of indices under which `Lookup` finds an entry |
| TraceBuffer.Tbuf.Lookup | src/jdb/jdb_tbuf.cc:80-97 | the entry at that place among the shown ones, newest first, or null behind the last |
| TraceBuffer.Tbuf.Idx | src/jdb/jdb_tbuf.cc:99-121 | the index that finds a shown entry; for a hidden one the number of shown newer entries, less one |
| TraceBuffer.Tbuf.SearchToIdx | src/jdb/jdb_tbuf.cc:124-149 | the index of the newest entry with the number, -2 if that is hidden, -1 if there is none |
| TraceBuffer.Tbuf.Search | src/jdb/jdb_tbuf.h:146-155 | an entry with the number such that no newer one has it, or null if none has it |
| TraceBuffer.Tbuf.NewEntry | src/jdb/jdb_tbuf.cc:44-62 | the next place gets the next number plus 1000; the new entry, if not hidden, is shown first, followed by what was shown without the oldest entry if the ring was full; the numbers stay those of the events |
| TraceBuffer.Tbuf.CommitEntry | src/jdb/jdb_tbuf.h:98-101 | committing a pending entry keeps the numbers those of the events and changes nothing of what is shown |
| TraceBuffer.Tbuf.Clear | src/jdb/jdb_tbuf.cc:31-41 | nothing is shown, nothing is pending, and every entry is blank |
| TraceBuffer.ViewIsExact | src/jdb/jdb_tbuf.cc:65-97 | the shown entries are exactly the filled positions that are not hidden, each once |
| TraceBuffer.ViewIsNewestFirst | src/jdb/jdb_tbuf.cc:80-97 | they are in order of age, newest first |
| TraceBuffer.ModIsRemainder | src/jdb/jdb_tbuf.h:131-144 | positions wrap by the remainder |
| TraceBuffer.AgeOfPos | src/jdb/jdb_tbuf.h:131-144 | unfiltered index of the unfiltered lookup is the index, for every fill level and wrap position |
| TraceBuffer.PosOfAge | src/jdb/jdb_tbuf.h:131-144 | and the other way round |
| TraceBuffer.IndexInvertsLookup | src/jdb/jdb_tbuf.cc:80-121 | index of the entry found under an index is that index and no other |
| TraceBuffer.SearchInvertsLookup | src/jdb/jdb_tbuf.cc:80-149 | with distinct numbers, searching for the number found under an index gives that index and no other |
| TraceBuffer.NewestAfter | src/jdb/jdb_tbuf.cc:44-62 | a new entry comes first, the others move back by one, and only the oldest goes if the ring is full |
| TraceBuffer.CommittedSearchInvertsLookup | src/jdb/jdb_tbuf.cc:44-149 | with all entries committed, searching for the number found under an index gives that index and no other |
| TraceBuffer.CommittedDistinct | src/jdb/jdb_tbuf.cc:44-62 | committed entries have distinct numbers |
| Base64.Encoder.Write | src/jdb/jdb_coredump.cc:182-203 | the stream grows by the data, and what is put out is determined by the stream |
| Base64.Encoder.WriteZeros | src/jdb/jdb_coredump.cc:205-210 | the stream grows by that many zero bytes |
| Base64.Encoder.Flush | src/jdb/jdb_coredump.cc:212-227 | the output is a function of the bytes written, however they were cut into writes |
| Base64.Encoder.Emit3 | src/jdb/jdb_coredump.cc:170-178 | one more group, and a line break after 57 bytes |
| Base64.StripFinal | src/jdb/jdb_coredump.cc:155-227 | without line breaks that output is base64 of the bytes (section 4 of RFC 4648) |
| Base64.RoundTrip | src/jdb/jdb_coredump.cc:170-178 | decoding base64 of any bytes gives them back |
| Base64.AlphabetIs | src/jdb/jdb_coredump.cc:163-168 | the alphabet is table 1 of RFC 4648, indexed by the low six bits |
| Base64.GroupIsNumber | src/jdb/jdb_coredump.cc:170-178 | the four characters of a group are the digits of its 24-bit number, most significant first |
| Base64.FinalIs | src/jdb/jdb_coredump.cc:161-227 | the output is base64 of the bytes with a line break after every 76 characters, and one behind a shorter last line unless that is a padded group alone |
| Base64.FinalFits | src/jdb/jdb_coredump.cc:161-178 | no line exceeds 76 characters (section 6.8 of RFC 2045) |
| Base64.LastLineTerminated | src/jdb/jdb_coredump.cc:212-227 | the output ends with a line break unless the number of bytes is 1 or 2 more than a multiple of 57 |
| CpuSet.CpuSet.First | src/abi/l4_types.h:871-893 | the least CPU below the limit that is in the set and in the map, or the limit; the scan ends |
| CpuSet.SkipGranule | src/abi/l4_types.h:881-886 | skipping a granule that is not in the map loses no candidate |
| CpuSet.CpuSet.OffsetRounds | src/abi/l4_types.h:839-847 | the offset is the start of the granule that the low 24 bits point into |
| CpuSet.CpuSet.FieldsOf | src/abi/l4_types.h:839-847 | a word made of an offset in the low 24 bits and a logarithm in the next eight has granules of that power of two, at most 2 to the 24, and an offset that is the multiple of it just below |
| CpuSet.CpuSet.ContainsExactly | src/abi/l4_types.h:858-869 | a CPU is in the set if and only if it lies in a granule whose bit is set, counted from the offset |

## Left out

- AsidSafety.RunsAreSafe: needs `AvoidsClashes`, because uniqueness is false without it; generations are unbounded, so that their wrap-around and the encoding of the invalid value are not modelled, and the set of online CPUs is fixed.
- AsidProtocol: accesses made under the lock are merged with the next access that another CPU can see, and a switch of the running space counts from the exchange or the publication of its tuple.
- BuddyAllocator.BuddyAllocator.AddMem: addresses are unbounded integers, masking is rounding down, and the loop counts units; memory outside the range the bitmap was set up for is excluded by a precondition.
- BuddyAllocator: the order of what stays on a list when a buddy is taken off it is not part of any result, and the debug checks and dumps are not modelled.
- Helping: the home CPU is fixed, lock invalidation is not modelled, and whether a thread is ready is arbitrary at each test.
- CpuCall: the online set is fixed, and the mode of one call does not change; that a call returns is stated as the existence of a continuation, and fairness between the CPUs is not modelled.
- Drq: a request is posted by the context it lies in; a context's queue is represented by which requests are on it, so that their order is not modelled; requests without a handler function and the kernel's own per-CPU requests are not modelled.
- IdAlloc: the validity and the ID that `free` reads are read in one step, an owner is not freed while an ID is being allocated for it, and the ID offset is not modelled.
- BootAlloc.BootAlloc.Alloc: zeroing the memory and the overflow of the doubled chunk size are not modelled; what the kernel allocator returns is a parameter.
- TraceBuffer.Tbuf.NewEntry: the time stamp and performance counters and the race between taking a number and writing the entry are not modelled; event numbers do not wrap.
- Base64: the ELF contents and register capture of the core dump are not modelled.
- Weak memory ordering and barriers are not modelled anywhere; every access takes effect at once.
- Scheduling, ready queues, timeouts, thread migration proper, RCU, mapping, the console and hardware drivers, the debugger's user interface and its CPU rendezvous are not part of this model.
