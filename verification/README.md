# Verified models of kernel timing, memory, mount, scheduling and naming code

This project models parts of a NetBSD kernel with local changes for tickless idling, power packing and
suspend-to-idle, and proves properties of the models. `dafny verify dfyconfig.toml` covers all of it.

Each subsystem has a value-level specification, lemmas that carry its invariant through every operation and
every run, and, where the kernel updates state in place, a class whose methods follow the code's loops and
assignments and are proved equal to the specification.

| subsystem | files |
|---|---|
| callout wheel, next-deadline cache, policy generation, coalescing, circular queues | `CalloutWheel`, `CalloutRuns`, `CalloutCache`, `CalloutIdle`, `CalloutPolicy`, `CalloutCoalesce`, `Circq`, `CalloutQueues`, `CalloutCpu` |
| vmem boundary-tag allocator | `VmemFit`, `VmemArena`, `VmemOps`, `VmemAlloc`, `VmemFree`, `VmemRelease`, `VmemTiling`, `VmemSearch`, `VmemSpans`, `VmemCanonical`, `VmemRuns`, `VmemView`, `Vmem` |
| all-mount suspend, admission gate, mount list iterators | `S2idleChain`, `S2idlePlan`, `S2idle`, `MountGate` |
| timecounter | `Timecounter`, `TimeWindup`, `TimeSeqlock` |
| run queues and power packing | `RunQueue`, `RunQueueRuns`, `RunQueueCpu` |
| device walks | `DeviceWalk`, `DeviceList`, `DeviceTree` |
| LWP suspend and continue | `LwpSuspend`, `LwpProc` |
| name cache | `NameTree`, `NameCache`, `NameReclaim`, `NameCacheRuns`, `NameLocks` |
| simple hooks | `SimpleHook`, `SimpleHookList` |
| shared | `Words` (machine arithmetic), `Options`, `Queues` (duplicate-free sequences) |

Conventions:

- A region of code under a mutex is one atomic step; where the code drops the lock, or reads or writes without
  one, the model has separate steps. Memory is sequentially consistent. The name cache is modelled twice: operations
  on an entry, made under the directory's lock, are one step in `NameCacheRuns`, and `NameLocks` takes them apart.
- 32-bit and 64-bit arithmetic is written out where it matters. Ticks are unbounded integers; the 32-bit
  comparisons of the code are applied to them, under the stated bound on how far apart live times may be.
- Policy and timehands generations in the interleaving models are unbounded. `TimeWindup` models their wrap.
- Identities (tags, callouts, LWPs, mounts, entries) are natural numbers; a new object has a new one.
- What code outside the model answers (a try-lock, a busy mount, a sync, the time of day, `ntp_update_second`)
  is an arbitrary parameter.

Where the code does not do what its own comments or intent promise:

- `callout_next_note` compares deadlines in 32 bits. If the cached deadline has passed without an idle entry
  since, a timeout of nearly 2^31 ticks compares as earlier, replaces it and makes the "exact or early" cache
  late. `CalloutCache.NoteKeepsCacheIff` gives the exact condition for one parking. Over whole runs the cache is
  safe if the longest timeout and the longest time between drained idle entries together are at most 2^31 ticks
  (`CalloutIdle.EveryIdleEntryIsSafe`), and with one tick more, however divided, there is a run in which it is not
  (`LongTimeoutMakesCacheLate`, `PaceBoundIsExact`).
- A cache kept "exact or early" should never make `callout_next_ticks` answer more than a full scan would. Where
  nothing is honoured any more, a cached deadline more than `CALLOUT_NO_NEXT` ticks away is answered, and a scan
  would answer `CALLOUT_NO_NEXT`.
  `CalloutCache.AnswerWithinScanIff` is the exact condition, `CalloutIdle.ScanBoundIsExact` says that it holds over
  all runs if and only if no timeout is longer than that, with a run that breaks it.
- `lpsched_coalesce` promises only ever to delay, but can push a deadline to 2^31 ticks or more from now, which
  then runs at once: `CalloutCoalesce.StaysInFutureIff` says for which requests, `OvershootRunsAtOnceIff` what the
  wheel does with them.
- `vmem_fit` can return an address outside the block at the top of the address space: `VmemFit.FitAtTheTop`
  is the exact condition for every request, `TopBlockEscapes` an instance.
- `bt_freehead_toalloc` asserts that its list exists, which an instant-fit request of more than 2^63 quanta trips:
  `VmemSearch.InstantListExistsIff`.
- A `binuptime` reader can leave its loop with a timehands whose generation is stored but whose pointer is not:
  `TimeSeqlock.ReaderSeesOneHand` says exactly when. With ten hands it takes nine windups between two of its loads
  (`PromptReaderSeesLive`), and nine are enough (`EarlyReadHappens`).
- `lwp_continue` does nothing for an LWP held for reboot, so the last request wins if and only if the LWP is not both
  asked to suspend and held: `LwpSuspend.LastContinueWins` and `ContinueIsLost`.
- A change or lend of priority of an LWP that is alone on its run queues starts its wait budget over:
  `RunQueueRuns.RequeueRestartsBudget`. The promise about stranded work is about time since joining the queue.

## Model

| member | source | states |
|---|---|---|
| CalloutWheel.NextMoveIsNext | kernel/kern/kern_timeout.c:130-132 | the next tick at which a bucket is moved to the worklist is strictly after now, moves that bucket, and no earlier tick does |
| CalloutWheel.BucketIsTimely | kernel/kern/kern_timeout.c:121-128 | the bucket chosen for a future deadline is moved no later than the deadline, for every delay below 2^31 and every position of the clock |
| CalloutWheel.NextMoveStep | kernel/kern/kern_timeout.c:874-900 | a bucket that is not moved at a tick keeps its next move tick |
| CalloutRuns.ScheduleKeepsInv | kernel/kern/kern_timeout.c:503-555 | scheduling, also the lazy postponement in place and the move to the worklist when earlier, keeps every pending callout on exactly one queue whose move tick is timely |
| CalloutRuns.StopKeepsInv | kernel/kern/kern_timeout.c:604-626 | stopping keeps the wheel invariant and takes off exactly that callout |
| CalloutRuns.MoveBucketPlaces | kernel/kern/kern_timeout.c:130-132 | moving a bucket takes exactly its callouts to the end of the worklist and empties it |
| CalloutRuns.HardclockKeepsInv | kernel/kern/kern_timeout.c:874-900 | a tick, with its cascade through up to four levels, keeps every pending callout on one queue and every bucket timely |
| CalloutRuns.SoftStepKeepsInv | kernel/kern/kern_timeout.c:1146-1172 | a pass of the worklist loop runs or parks its head and keeps the invariant |
| CalloutRuns.StepKeepsInv | kernel/kern/kern_timeout.c:503-900 | every operation keeps the wheel invariant |
| CalloutRuns.ScheduleRefines | kernel/kern/kern_timeout.c:503-555 | scheduling sets that callout's time in the map of pending times and no other |
| CalloutRuns.StopRefines | kernel/kern/kern_timeout.c:604-626 | stopping removes that callout from the map of pending times and no other |
| CalloutRuns.SoftStepRefines | kernel/kern/kern_timeout.c:1146-1172 | a softclock pass runs its callout if and only if its time has come, and parking changes nothing observable |
| CalloutRuns.StepRefines | kernel/kern/kern_timeout.c:121-132 | each operation on the four-level wheel is one step of a plain map from pending callouts to times |
| CalloutRuns.DrainedMeansNoneDue | kernel/kern/kern_timeout.c:1146-1172 | with an empty worklist no pending callout is due |
| CalloutRuns.EveryRunRefines | kernel/kern/kern_timeout.c:65-132 | every run of schedule, postpone, advance, stop, tick and softclock steps from an idle wheel is a run of the reference timer map: nothing lost, nothing twice, nothing early |
| CalloutCache.ScanBucketsIsMin | kernel/kern/kern_timeout.c:1095-1111 | the scan over all buckets finds the least time of the honoured parked callouts, and none only if there are none |
| CalloutCache.RescanIsExact | kernel/kern/kern_timeout.c:1094-1115 | after a full scan the cached deadline is attained by an honoured callout and is the earliest |
| CalloutCache.AnswerIsSafe | kernel/kern/kern_timeout.c:1057-1121 | an idle entry is never answered more ticks than any honoured callout has left, and 0 when the worklist is not empty |
| CalloutCache.AnswerWithinScanIff | kernel/kern/kern_timeout.c:1057-1121 | a drained idle entry is answered no more than a full scan would give if and only if something is honoured, or the cache is not used, or what it says is at most CALLOUT_NO_NEXT |
| CalloutCache.NoteKeepsCacheIff | kernel/kern/kern_timeout.c:1044-1055 | parking a callout keeps the cached deadline exact or early if and only if its time is less than 2^31 ticks after the cached one or no honoured callout is earlier |
| CalloutCache.SetDeferrableKeepsInv | kernel/kern/kern_timeout.c:1013-1029 | marking and unmarking a callout keeps the cache exact or early |
| CalloutIdle.PacedStepKeeps | kernel/kern/kern_timeout.c:188-199 | every operation keeps wheel, cache and pace invariant, given only how long timeouts are and how long ago the last drained idle entry was |
| CalloutIdle.EveryIdleEntryIsSafe | kernel/kern/kern_timeout.c:188-199 | over every run of all operations, policy changes and idle entries from an idle CPU in which the longest timeout and the longest time between drained idle entries together are at most 2^31 ticks, each idle answer is safe for every honoured callout, and is no more than a full scan exactly under the condition above, in particular if no timeout is longer than CALLOUT_NO_NEXT |
| CalloutIdle.LongTimeoutMakesCacheLate | kernel/kern/kern_timeout.c:1044-1055 | one tick more is too much, however divided: for all bounds of at least 2 that add up to 2^31 + 1 a run from an idle CPU keeps to them and ends with an answer past a callout that has one tick left |
| CalloutIdle.PaceBoundIsExact | kernel/kern/kern_timeout.c:188-199 | so, for bounds of at least 2, every run that keeps to them is safe if and only if they add up to at most 2^31 |
| CalloutIdle.ScanBoundIsExact | kernel/kern/kern_timeout.c:1057-1066 | within that bound, no run ever answers more than a full scan if and only if timeouts are limited to CALLOUT_NO_NEXT; a timeout of one tick more, cached and stopped, is a run that does |
| CalloutPolicy.StepKeepsInv | kernel/kern/kern_timeout.c:924-941 | each separate read or write of policy, generation and cache keeps the protocol invariant |
| CalloutPolicy.GenerationNamesThePolicy | kernel/kern/kern_timeout.c:1069-1115 | over every interleaving of several writers with scans and insertions, a cache tagged with the current generation is valid for the current policy whenever no writer is between store and increment |
| CalloutPolicy.StoreMustComeFirst | kernel/kern/kern_timeout.c:934-939 | incrementing before storing would break it |
| CalloutCoalesce.DelayIsBounded | kernel/kern/kern_timeout.c:436-494 | coalescing never advances a deadline, delays it by at most half the request, and lands it on the shared grid |
| CalloutCoalesce.StaysInFutureIff | kernel/kern/kern_timeout.c:436-494 | the stored deadline compares as future if and only if not both the timeout is one that is put on the grid and it is so little past a grid point that the next is 2^31 ticks away |
| CalloutCoalesce.SlackKeepsInvIff | kernel/kern/kern_timeout.c:503-555 | scheduling with coalescing keeps the wheel invariant exactly under that condition |
| CalloutCoalesce.OvershootRunsAtOnceIff | kernel/kern/kern_timeout.c:1146-1172 | on a drained wheel the next softclock pass runs such a callout at once, which is no step of the reference timer map, if and only if the condition fails |
| CalloutCoalesce.EverySlackRunRefines | kernel/kern/kern_timeout.c:436-555 | every run with coalesced requests that meet the condition is a run of the reference timer map in which each is made for its time or up to half as long again |
| CalloutCoalesce.LongSlackTimeoutRunsAtOnce | kernel/kern/kern_timeout.c:436-494 | a 2^31 - 1 tick timeout with slack on a ten-tick grid does not meet it |
| CalloutCpu.CalloutCpu.constructor | kernel/kern/kern_timeout.c:333-367 | an empty wheel |
| CalloutCpu.CalloutCpu.ScheduleLocked | kernel/kern/kern_timeout.c:503-555 | through the links, exactly the specified scheduling with its coalescing |
| CalloutCpu.CalloutCpu.Stop | kernel/kern/kern_timeout.c:604-626 | through the links, exactly the specified stop; the result says whether the callout had fired |
| CalloutCpu.CalloutCpu.MoveBucket | kernel/kern/kern_timeout.c:130-132 | through the links, exactly the specified bucket move |
| CalloutCpu.CalloutCpu.Hardclock | kernel/kern/kern_timeout.c:874-900 | through the links, exactly the specified tick; the result says whether there is softclock work |
| CalloutCpu.CalloutCpu.NextNote | kernel/kern/kern_timeout.c:1044-1055 | in place, exactly the specified cache update |
| CalloutCpu.CalloutCpu.SoftclockPass | kernel/kern/kern_timeout.c:1146-1172 | through the links, exactly the specified softclock pass; the result is the callout to invoke |
| CalloutCpu.CalloutCpu.SetDeferrable | kernel/kern/kern_timeout.c:1013-1029 | in place, exactly the specified marking |
| CalloutCpu.CalloutCpu.NextTicks | kernel/kern/kern_timeout.c:1057-1121 | the scan along every bucket computes exactly the specified answer and cache |
| CalloutCpu.CalloutCpu.ScanBucket | kernel/kern/kern_timeout.c:1096-1110 | the walk along the links of a bucket is the specified scan of its sequence |
| CalloutQueues.CalloutQueues.Insert | kernel/kern/kern_timeout.c:144-150 | with all 1025 heads in one set of links, the callout is last on that queue and no other queue changes |
| CalloutQueues.CalloutQueues.Remove | kernel/kern/kern_timeout.c:163-167 | the callout leaves whichever queue it is on and no other queue changes |
| CalloutQueues.CalloutQueues.Move | kernel/kern/kern_timeout.c:130-132 | a bucket goes to the end of the worklist, is left empty, and no other queue changes |
| CalloutQueues.CalloutQueues.After | kernel/kern/kern_timeout.c:169-172 | following a link gives the next callout of that queue, or its head at the end |
| Circq.Links.Init | kernel/kern/kern_timeout.c:138-142 | an initialised head is an empty queue |
| Circq.Links.Empty | kernel/kern/kern_timeout.c:172-172 | a head points to itself if and only if its queue is empty |
| Circq.Links.Insert | kernel/kern/kern_timeout.c:144-150 | the four writes append the element to the sequence the queue stands for and leave every queue apart from it alone |
| Circq.Links.Remove | kernel/kern/kern_timeout.c:163-167 | the two writes take the element out of the sequence, wherever it stands, and leave every other queue alone |
| Circq.Links.Append | kernel/kern/kern_timeout.c:152-161 | the writes concatenate two queues, empty the second and leave every other queue alone |
| VmemFit.FitIsLeast | kernel/kern/subr_vmem.c:921-968 | absent address wrap, the result is the least address of the block that meets align, phase, nocross, min and max, and failure means there is none |
| VmemFit.FitAtTheTop | kernel/kern/subr_vmem.c:921-968 | for every block and request: the result is right if and only if nothing of the range is left, or the aligned request ends below 2^64, or what the rounding wraps to does not fit; otherwise there is no admissible address and one is returned |
| VmemFit.TopBlockEscapes | kernel/kern/subr_vmem.c:949-968 | a block at the top of the address space for which the result lies outside the block |
| VmemFit.AlignUpWraps | kernel/kern/subr_vmem.c:166-170 | the bit-mask rounding is the unbounded rounding modulo 2^64 |
| VmemFit.CrossingSkips | kernel/kern/subr_vmem.c:953-956 | past a crossed boundary, no admissible address is skipped |
| VmemArena.Log2Brackets | kernel/kern/subr_vmem.c:421-429 | free list n holds sizes from 2^n up to 2^(n+1) - 1 quanta |
| VmemOps.OrderInRange | kernel/kern/subr_vmem.c:431-444 | every block size has a free list among the 64 |
| VmemSearch.InstantOrderSuffices | kernel/kern/subr_vmem.c:455-473 | any block from the instant-fit list on is large enough for the request |
| VmemSearch.InstantListExistsIff | kernel/kern/subr_vmem.c:455-473 | the instant-fit list asserted to exist does if and only if the request is at most 2^63 quanta |
| VmemSearch.LowerOrderTooSmall | kernel/kern/subr_vmem.c:455-473 | no block below the request's own list is large enough |
| VmemSearch.InstantBlocksBigEnough | kernel/kern/subr_vmem.c:1247-1271 | instant fit hands vmem_fit only blocks that are big enough |
| VmemSearch.ChooseIsRight | kernel/kern/subr_vmem.c:1241-1301 | for every arena and request: the search fails only if no free block of any span has an admissible address, and what it finds is one of a free block if and only if vmem_fit is right for that block |
| VmemSearch.SpansBelowTop | kernel/kern/subr_vmem.c:921-968 | vmem_fit is right for the block found whenever every span ends the size and the alignment below 2^64 |
| VmemAlloc.FrontSplitKeeps | kernel/kern/subr_vmem.c:1333-1343 | cutting off the front of a block keeps tiling, lists, hash and counters |
| VmemAlloc.BackSplitKeeps | kernel/kern/subr_vmem.c:1345-1355 | splitting off the allocated part keeps tiling, lists, hash and counters |
| VmemAlloc.TakeWholeKeeps | kernel/kern/subr_vmem.c:1356-1362 | taking a whole block keeps tiling, lists, hash and counters |
| VmemAlloc.AllocKeepsInv | kernel/kern/subr_vmem.c:1328-1376 | carving a block out of a free tag keeps the arena invariant and adds exactly the block asked for |
| VmemSearch.XallocIsRight | kernel/kern/subr_vmem.c:1184-1376 | vmem_xalloc keeps the arena invariant; on success the one new block is admissible and lay in a free block; on failure nothing held changes and, tags at hand, no free block could hold the request |
| VmemSearch.XallocDisjoint | kernel/kern/subr_vmem.c:1184-1376 | a new allocation overlaps no other |
| VmemFree.UnbusyDetaches | kernel/kern/subr_vmem.c:1460-1462 | taking a tag off the busy hash keeps everything but that tag |
| VmemFree.AbsorbKeeps | kernel/kern/subr_vmem.c:1464-1480 | merging a free neighbour keeps tiling, lists, hash, counters and tags |
| VmemFree.PrecededByHeader | kernel/kern/subr_vmem.c:1483-1485 | after coalescing the tag before is there and is a span header or busy |
| VmemFree.ReleaseKeeps | kernel/kern/subr_vmem.c:1486-1502 | giving back a span that became free keeps the invariant, and header and block start at the same address |
| VmemFree.ReattachKeeps | kernel/kern/subr_vmem.c:1503-1508 | putting the merged tag on its free list restores the invariant |
| VmemFree.XfreeKeepsInv | kernel/kern/subr_vmem.c:1453-1509 | vmem_xfree_bt keeps the arena invariant and takes away exactly that block, besides at most a releasable span header; at most 64 spare tags remain |
| VmemRelease.SpanReleasedIff | kernel/kern/subr_vmem.c:1483-1502 | a span is given back if and only if the arena releases spans, the span is not static, the block lies in it and no other allocation meets it |
| VmemSpans.Add1KeepsInv | kernel/kern/subr_vmem.c:745-782 | adding a span keeps the invariant; only its header is new and all of it is free; without tags nothing changes |
| VmemSpans.RehashKeepsInv | kernel/kern/subr_vmem.c:855-911 | a rehash to any size keeps the invariant and loses no busy tag; the new table has more than n and at most 2n lists |
| VmemSpans.LookupIsRight | kernel/kern/subr_vmem.c:489-503 | an address finds a tag if and only if it is where that allocation starts |
| VmemTiling.Neighbours | kernel/kern/subr_vmem.c:1745-1778 | each span's tags start where it starts, follow without gap or overlap, end where it ends, and no two adjacent ones are free |
| VmemTiling.NoOverlap | kernel/kern/subr_vmem.c:1745-1778 | no two blocks of the arena overlap if its spans do not |
| VmemTiling.AllocatedApart | kernel/kern/subr_vmem.c:1745-1778 | no two allocations overlap |
| VmemCanonical.FreeIsDetermined | kernel/kern/subr_vmem.c:1464-1480 | two arenas that hold the same have the same free blocks, whatever their histories |
| VmemRuns.StepKeepsGood | kernel/kern/subr_vmem.c:745-1509 | every operation keeps the arena invariant and the spans apart |
| VmemRuns.EveryRunIsGood | kernel/kern/subr_vmem.c:745-1509 | along every run of add, alloc, free and rehash the arena invariant holds |
| VmemView.RoomIsOffered | kernel/kern/subr_vmem.c:1241-1301 | wherever in a span a request may be put, on no block and under every restriction, one free block offers it |
| VmemView.StepRefines | kernel/kern/subr_vmem.c:1184-1509 | each operation is a step of the simple allocator on spans and blocks: allocation adds one block where there is room, crossing and all other restrictions included, and fails only if spare tags are short or there is no room; freeing takes the block and exactly the releasable spans it leaves empty |
| VmemView.EveryRunRefines | kernel/kern/subr_vmem.c:1184-1509 | every run is, to its users, a run of that allocator |
| VmemRuns.InUseIsSum | kernel/kern/subr_vmem.c:505-528 | vm_inuse is the sum of the busy sizes, vm_size the sum of the spans, and the first is at most the second, at every point of every run |
| VmemRuns.AllocThenFree | kernel/kern/subr_vmem.c:1404-1425 | freeing what vmem_xalloc returned restores the allocations and, unless that empties a span to be given back, every free block |
| VmemRuns.FreeAllEmpties | kernel/kern/subr_vmem.c:1427-1451 | free-all ends with nothing allocated and nothing in use |
| Vmem.Vmem.constructor | kernel/kern/subr_vmem.c:976-1057 | an empty arena satisfies the invariant |
| Vmem.Vmem.InsFree | kernel/kern/subr_vmem.c:562-569 | in place, exactly the specified insertion |
| Vmem.Vmem.RemFree | kernel/kern/subr_vmem.c:553-560 | unlinking from one list is exactly the specified removal from all |
| Vmem.Vmem.InsBusy | kernel/kern/subr_vmem.c:515-528 | in place, exactly the specified insertion and counters |
| Vmem.Vmem.RemBusy | kernel/kern/subr_vmem.c:505-513 | unlinking from one list is exactly the specified removal from all |
| Vmem.Vmem.FreeTrim | kernel/kern/subr_vmem.c:363-400 | the loop leaves the last 64 spare tags and returns the others |
| Vmem.Vmem.Search | kernel/kern/subr_vmem.c:1241-1301 | the search loops compute exactly the specified choice |
| Vmem.Vmem.LookupBusy | kernel/kern/subr_vmem.c:489-503 | the loop computes exactly the specified lookup |
| Vmem.Vmem.Carve | kernel/kern/subr_vmem.c:1328-1376 | in place, exactly the specified carving |
| Vmem.Vmem.Xalloc | kernel/kern/subr_vmem.c:1184-1376 | in place, exactly the specified allocation or failure |
| Vmem.Vmem.Coalesce | kernel/kern/subr_vmem.c:1464-1480 | in place, exactly the two specified merges |
| Vmem.Vmem.XfreeBt | kernel/kern/subr_vmem.c:1453-1509 | in place, exactly the specified free |
| Vmem.Vmem.Xfree | kernel/kern/subr_vmem.c:1404-1425 | frees the block that starts at the address |
| Vmem.Vmem.Xfreeall | kernel/kern/subr_vmem.c:1427-1451 | the loop ends, with nothing allocated |
| Vmem.Vmem.Add1 | kernel/kern/subr_vmem.c:745-782 | in place, exactly the specified addition; the error says that tags ran out |
| Vmem.Vmem.Rehash | kernel/kern/subr_vmem.c:855-911 | the nested loops compute exactly the specified table and counters |
| S2idleChain.CanonicalMount | kernel/kern/vfs_s2idle.c:92-110 | on every finite graph of lower mounts the search ends, returns NULL if and only if the chain is cyclic, and else the chain's last mount |
| S2idleChain.FastMeetsSlow | kernel/kern/vfs_s2idle.c:97-106 | on an endless chain the fast pointer meets the slow one within as many steps as there are links |
| S2idleChain.OneLast | kernel/kern/vfs_s2idle.c:107-109 | a chain has one last mount |
| S2idlePlan.SuspendsInReverse | kernel/kern/vfs_s2idle.c:291-305 | each canonical mount is suspended exactly once, in reverse list order |
| S2idlePlan.TopsMeaning | kernel/kern/vfs_s2idle.c:291-305 | the mounts suspended are exactly the canonical ones, none twice |
| S2idlePlan.SyncedUnderCanonical | kernel/kern/vfs_s2idle.c:306-318 | whenever a mount is synced, its own canonical mount is the one suspended last |
| S2idlePlan.SyncedOnce | kernel/kern/vfs_s2idle.c:306-318 | each mount is synced exactly once if canonical mounts are their own |
| S2idle.Vfs.BackingIsCanonical | kernel/kern/vfs_s2idle.c:262-272 | the canonical mounts the code computes are: the last mount of a chain is its own |
| S2idlePlan.UndoReverses | kernel/kern/vfs_s2idle.c:149-167 | undoing resumes exactly the reverse of the suspensions |
| S2idle.Vfs.IterNext | kernel/kern/vfs_mount.c:1661-1714 | the next mount that can be marked busy, telling of any mount skipped |
| S2idle.Vfs.Collect | kernel/kern/vfs_s2idle.c:204-242 | success means one hold on exactly the mounts of the list; failure means a hold on a prefix of them |
| S2idle.Vfs.Canonicalize | kernel/kern/vfs_s2idle.c:262-272 | succeeds if and only if every chain ends at a mount of the list |
| S2idle.Vfs.HasMount | kernel/kern/vfs_s2idle.c:112-122 | finds a mount if and only if it is among the saved ones |
| S2idle.Vfs.SameUpdater | kernel/kern/vfs_s2idle.c:124-135 | true if and only if the updater lock of that mount is held already |
| S2idle.Vfs.LockUpdaters | kernel/kern/vfs_s2idle.c:275-284 | each distinct updater lock is taken once; on failure the marked entries name exactly the locks held |
| S2idle.Vfs.UnlockUpdates | kernel/kern/vfs_s2idle.c:137-147 | every updater lock is released |
| S2idle.Vfs.SyncOne | kernel/kern/vfs_s2idle.c:310-316 | the sync runs with MNT_ASYNC clear and the flag is put back |
| S2idle.Vfs.SyncAliases | kernel/kern/vfs_s2idle.c:306-318 | syncs the mounts of one canonical mount in reverse order, up to the first failure |
| S2idle.Vfs.SuspendSync | kernel/kern/vfs_s2idle.c:291-319 | carries out the plan up to the first failure; the stack of suspensions is what it suspended |
| S2idle.Vfs.ResumeSuspended | kernel/kern/vfs_s2idle.c:149-167 | resumes all suspensions in exactly reverse order, the global one last |
| S2idle.Vfs.SuspendAll | kernel/kern/vfs_s2idle.c:183-334 | all or nothing: success covers exactly the mount list and the whole plan, so every mount is synced exactly once and the canonical ones are suspended in reverse; failure leaves no hold, lock, suspension, flag change or barrier, and undoes what was suspended in reverse |
| S2idle.Vfs.ResumeAll | kernel/kern/vfs_s2idle.c:336-352 | a session is undone in reverse and nothing of it remains |
| MountGate.ExitsAreSafe | kernel/kern/vfs_s2idle.c:53-90 | the assertions of both exits hold in every reachable state |
| MountGate.StepKeepsInv | kernel/kern/vfs_s2idle.c:37-90 | every step keeps: owner excludes mount operations, counts are right, and each iterator has come to exactly the mounts before its marker |
| MountGate.BootedInv | kernel/kern/vfs_s2idle.c:22-35 | the state after initialisation meets the invariant |
| MountGate.EveryRunKeepsInv | kernel/kern/vfs_s2idle.c:37-90 | over every interleaving of mount operations, barriers and iterators the invariant holds |
| MountGate.BarrierFreezesTheList | kernel/kern/vfs_mount.c:934-1058 | as long as the barrier is held the mounts on the list and their order stay the same |
| MountGate.EndMeansAllSeen | kernel/kern/vfs_mount.c:1629-1768 | an iterator at the end of the list has come to every mount on it and to none twice, whatever was appended, removed or walked meanwhile |
| Timecounter.AddXExact | kernel/kern/kern_tc.c:491-500 | adding a fraction with carry is exact |
| Timecounter.AddScaledExact | kernel/kern/kern_tc.c:491-500 | the split product adds exactly scale times delta, however many seconds that is worth |
| Timecounter.SleepsDoNotWrap | kernel/kern/kern_tc.c:272-301 | a sleep within the bound moves neither the active nor the selected counter by more than half its range |
| Timecounter.DeltaIsElapsed | kernel/kern/kern_tc.c:504-512 | the masked difference is the number of counts since the windup if that is below the counter's range |
| Timecounter.ReadIsExact | kernel/kern/kern_tc.c:562-569 | a reading is the offset plus scale for every count since the windup |
| Timecounter.WindupIsExact | kernel/kern/kern_tc.c:1023-1029 | a windup moves the reference to its own count and loses nothing |
| Timecounter.AnyScheduleIsExact | kernel/kern/kern_tc.c:1023-1029 | any schedule of windups with gaps within the bound accumulates exactly scale for every count |
| Timecounter.TimeIsExact | kernel/kern/kern_tc.c:272-301 | at every count, after any such schedule, the time read is the starting time plus scale for every count since |
| TimeWindup.AddExact | kernel/kern/kern_tc.c:1053-1054 | adding the timebase is exact |
| TimeWindup.ScaleIsClose | kernel/kern/kern_tc.c:1135-1140 | unadjusted, a second of counts is a second less at most two units per count |
| TimeWindup.TimeHands.CrossSeconds | kernel/kern/kern_tc.c:1070-1099 | ntp_update_second is called once for each second of the clock as adjusted so far, in order, each time with the adjustment the last call left; the final second and adjustment are what the last call made of them |
| TimeWindup.TimeHands.LargeStep | kernel/kern/kern_tc.c:1056-1069 | after a large step it is called with the final second and then with what that became, and the timebase follows its corrections |
| TimeWindup.TimeHands.Seconds | kernel/kern/kern_tc.c:1053-1100 | no call, one per second or two, as the 32-bit step decides; the timebase moves by exactly the correction made to the UTC second |
| TimeWindup.TimeHands.Windup | kernel/kern/kern_tc.c:991-1167 | the next hand of the ring becomes current with the exact uptime, the selected counter, the UTC second of that uptime by the new timebase, the adjustment the calls left and the scale that follows from it; no other hand changes; both generations go up and are not zero |
| TimeSeqlock.StepKeepsInv | kernel/kern/kern_tc.c:1006-1166 | every load and store of reader and writer keeps the ring invariant |
| TimeSeqlock.EveryRunKeepsInv | kernel/kern/kern_tc.c:562-569 | over every interleaving the ring invariant holds |
| TimeSeqlock.ReaderSeesOneHand | kernel/kern/kern_tc.c:562-569 | a reader that leaves its loop has the contents of one hand as one windup completed it; they have been live if and only if that windup is not between its generation and pointer stores |
| TimeSeqlock.PromptReaderSeesLive | kernel/kern/kern_tc.c:562-569 | if at most eight windups publish between its loads of the current hand and of the generation, they have been live |
| TimeSeqlock.EarlyReadHappens | kernel/kern/kern_tc.c:1146-1166 | eight is the most: a reader delayed for nine windups that store every field, whatever their number and values, can leave with the new contents of a hand that is not live yet |
| RunQueue.EnqueueKeeps | kernel/kern/kern_runq.c:186-256 | enqueueing keeps queues, bitmap, counts and maximum in step |
| RunQueue.DequeueKeeps | kernel/kern/kern_runq.c:262-318 | dequeueing keeps queues, bitmap, counts and maximum in step |
| RunQueue.DequeueMax | kernel/kern/kern_runq.c:297-317 | the ffs search leaves the highest non-empty priority, or 0 |
| RunQueue.HighestIsHighest | kernel/kern/kern_runq.c:306-316 | the search down the words finds the highest non-empty queue, or 0 |
| RunQueue.OthersKeep | kernel/kern/kern_runq.c:186-318 | a CPU is untouched by changes to an LWP that is not on its queues |
| RunQueueRuns.EnqKeeps | kernel/kern/kern_lpsched.c:153-163 | enqueueing keeps every CPU consistent, and q_since no later than the time any queued LWP joined |
| RunQueueRuns.DeqKeeps | kernel/kern/kern_lpsched.c:166-173 | dequeueing keeps every CPU consistent, and q_since non-zero exactly while the queue holds somebody |
| RunQueueRuns.RequeueKeeps | kernel/kern/kern_synch.c:1054-1113 | dequeue, change, enqueue keeps the system consistent |
| RunQueueRuns.OnExactlyOneQueue | kernel/kern/kern_runq.c:186-318 | a queued LWP is on exactly one queue, that of its CPU and effective priority |
| RunQueueRuns.StepKeepsInv | kernel/kern/kern_synch.c:1054-1113 | wakeups, removals, priority changes, lending and stealing keep the system consistent |
| RunQueueRuns.EveryRunKeepsInv | kernel/kern/kern_runq.c:186-318 | queues, bitmaps, maxima, counts and wait stamps agree at every point of every run |
| RunQueueRuns.BootInv | kernel/kern/kern_runq.c:136-169 | empty queues are consistent |
| RunQueueRuns.MinCatch | kernel/kern/kern_runq.c:757-793 | the threshold is raised if and only if packing is on, the queue is timeshare and within budget, and the stealer's whole core is idle |
| RunQueueRuns.WaitersMakeOverdue | kernel/kern/kern_lpsched.c:227-238 | once a queued LWP has been there past the budget, its queue is overdue |
| RunQueueRuns.NeverStranded | kernel/kern/kern_runq.c:757-793 | at any point of any run no stealer is held back from a queue with such an LWP |
| RunQueueRuns.RequeueRestartsBudget | kernel/kern/kern_lpsched.c:153-173 | a change or lend of priority starts the budget over if the LWP is alone on its queues and leaves it alone if not |
| RunQueueCpu.SchedState.constructor | kernel/kern/kern_runq.c:136-169 | empty queues |
| RunQueueCpu.SchedState.Enqueue | kernel/kern/kern_runq.c:186-256 | in place, exactly the specified enqueue, at the head or tail as POSIX wants |
| RunQueueCpu.SchedState.Dequeue | kernel/kern/kern_runq.c:262-318 | in place, exactly the specified dequeue |
| RunQueueCpu.SchedState.FindHighest | kernel/kern/kern_runq.c:306-316 | the word loop computes exactly the specified maximum |
| RunQueueCpu.SchedState.FindFirstSet | kernel/kern/kern_runq.c:308-310 | ffs of a non-empty word |
| RunQueueCpu.SchedState.NextLwp | kernel/kern/kern_runq.c:1334-1374 | the LWP picked has the highest effective priority of the CPU, and nobody is picked exactly if a thread is migrating or nobody is queued |
| RunQueueCpu.SchedState.CatchLwp | kernel/kern/kern_runq.c:895-952 | the LWP taken is the first movable one of the highest priority, and none is taken exactly when the threshold, the processor set or that queue forbids it |
| RunQueueCpu.WakeCost | kernel/kern/kern_runq.c:607-625 | waking is free beside a running sibling, unless accounting is on and one runs focused or realtime work |
| RunQueueCpu.PackPick | kernel/kern/kern_runq.c:676-748 | a free CPU to wake, else from level 2 a running CPU, with accounting on only one with short bursts, else the cheapest, the home CPU on a tie; none only if there is none of these |
| RunQueueCpu.CheapestIdle | kernel/kern/kern_runq.c:683-700 | the cheapest idle CPU that may be used, the LWP's own on a tie |
| DeviceWalk.NextTakesFirst | kernel/kern/subr_autoconf.c:3862-3896 | deviter_next returns the first of what is still to come and NULL exactly when nothing is |
| DeviceWalk.RestUnseen | kernel/kern/subr_autoconf.c:3699-3711 | devices attached or marked deleted during a walk do not change what it has still to return |
| DeviceWalk.FreshIsComplete | kernel/kern/subr_autoconf.c:3768-3807 | a new walk has to return each device that exists at its generation once, by depth if asked |
| DeviceList.StepKeepsInv | kernel/kern/subr_autoconf.c:1423-3910 | attach, detach, collection and all walk steps keep counts and walks consistent |
| DeviceList.BootedInv | kernel/kern/subr_autoconf.c:238-243 | the empty list meets the invariant |
| DeviceList.EveryRunKeepsInv | kernel/kern/subr_autoconf.c:1423-3910 | the invariant holds at every point of every run |
| DeviceList.NothingLeaves | kernel/kern/subr_autoconf.c:2284-2295 | no device leaves the list while a walk is open |
| DeviceList.WantIsExistence | kernel/kern/subr_autoconf.c:3768-3807 | what a walk has to return is exactly the devices existing when it begins, in the order asked for |
| DeviceList.WalkReturnsAll | kernel/kern/subr_autoconf.c:3862-3896 | whatever attaches, detaches and collections come between, a walk returns the devices of its generation once each and in order, and NULL only after all |
| DeviceTree.AllDevs.Devlink | kernel/kern/subr_autoconf.c:1423-1437 | in place, exactly the attach step; the invariant is kept and every open walk has the same devices to return as before |
| DeviceTree.AllDevs.CollectGarbage | kernel/kern/subr_autoconf.c:2008-2029 | the loop does exactly the collection step: the marked devices are unlinked, and none while anybody is in the list |
| DeviceTree.AllDevs.FindDeepest | kernel/kern/subr_autoconf.c:3786-3803 | the greatest depth of a visible device |
| DeviceTree.AllDevs.InitWalk | kernel/kern/subr_autoconf.c:3768-3807 | exactly the step that begins a walk: it is fresh and is counted |
| DeviceTree.AllDevs.StepOnce | kernel/kern/subr_autoconf.c:3828-3860 | the loop computes exactly the specified next visible device |
| DeviceTree.AllDevs.NextDevice | kernel/kern/subr_autoconf.c:3862-3896 | the loops do exactly the walk step and return the first of what is still to come |
| DeviceTree.AllDevs.ReleaseWalk | kernel/kern/subr_autoconf.c:3898-3910 | in place, exactly the step that ends a walk |
| LwpSuspend.SetRunnableKeeps | kernel/kern/kern_synch.c:884-959 | setrunnable keeps p_nrlwps and the state invariants |
| LwpSuspend.SuspendKeeps | kernel/kern/kern_lwp.c:436-503 | lwp_suspend calls setrunnable only where it does not panic, and keeps the invariants |
| LwpSuspend.ContinueKeeps | kernel/kern/kern_lwp.c:511-533 | lwp_continue keeps the invariants |
| LwpSuspend.RebootKeeps | kernel/kern/kern_synch.c:993-1018 | the region of suspendsched for an LWP keeps the invariants |
| LwpSuspend.RebootHolds | kernel/kern/kern_synch.c:993-1018 | it leaves the LWP held for reboot, asked to suspend and not in an interruptible sleep, and nothing else changed |
| LwpSuspend.ContinueResumes | kernel/kern/kern_lwp.c:511-533 | after lwp_continue the LWP is suspended, or asked to suspend, if and only if it was and is held for reboot |
| LwpSuspend.StepKeepsInv | kernel/kern/kern_lwp.c:1747-1771 | every step, suspendsched and creation with its copied flags included and the unlocked read and the locked recheck apart, keeps: suspended implies LW_WSUSPEND, and p_nrlwps is the number of LWPs that count |
| LwpSuspend.ForkedInv | kernel/kern/kern_lwp.c:937-943 | a new process meets the invariant |
| LwpSuspend.EveryRunKeepsInv | kernel/kern/kern_lwp.c:436-533 | the same at every point of every run |
| LwpSuspend.LastContinueWins | kernel/kern/kern_lwp.c:1747-1771 | after a continue of an LWP not both asked to suspend and held for reboot, and until somebody asks again, it is not suspended at any later point |
| LwpSuspend.ContinueIsLost | kernel/kern/kern_lwp.c:517-523 | for every LWP that is both, and has not exited, there is a run after lwp_continue in which nobody asks again and which ends with it suspended |
| LwpProc.Proc.SetRunnable | kernel/kern/kern_synch.c:884-959 | in place, exactly the specified change |
| LwpProc.Proc.Suspend | kernel/kern/kern_lwp.c:436-503 | in place, exactly the specified change, with EDEADLK and EINTR where the code gives them |
| LwpProc.Proc.Continue | kernel/kern/kern_lwp.c:511-533 | in place, exactly the specified change; suspended, or asked to suspend, afterwards if and only if it was and is held for reboot |
| LwpProc.Proc.SuspendSched | kernel/kern/kern_synch.c:993-1018 | the loop holds every LWP of the process but the caller for reboot and keeps the invariants |
| LwpProc.Proc.UserretSuspend | kernel/kern/kern_lwp.c:1747-1771 | in place: suspends if and only if LW_WSUSPEND is still set under the lock |
| NameTree.CompareOrder | kernel/kern/vfs_cache.c:341-355 | cache_compare_nodes is a total order on names, since the key holds the length |
| NameTree.KeyIsFormed | kernel/kern/vfs_cache.c:362-371 | a key determines the length of its name |
| NameTree.SearchIsRight | kernel/kern/vfs_cache.c:427-478 | the inlined search finds exactly what a tree ordered by cache_compare_nodes holds |
| NameCache.RemoveKeeps | kernel/kern/vfs_cache.c:378-422 | removal keeps tree, vnode lists and LRU lists in step |
| NameCache.ActivateKeeps | kernel/kern/vfs_cache.c:1329-1340 | activation keeps the views in step |
| NameCache.DeactivateKeeps | kernel/kern/vfs_cache.c:1346-1383 | balancing keeps the views in step |
| NameCache.SendBackKeeps | kernel/kern/vfs_cache.c:1432-1438 | requeueing a busy victim keeps the views in step |
| NameCache.OnePerName | kernel/kern/vfs_cache.c:963-976 | a directory holds one entry per name |
| NameCache.SeenMeans | kernel/kern/vfs_cache.c:427-478 | a lookup finds the one entry with that directory and name, or there is none |
| NameCache.RemoveSeen | kernel/kern/vfs_cache.c:378-422 | removing an entry makes its name unknown and changes no other |
| NameCache.EnterKeeps | kernel/kern/vfs_cache.c:914-1008 | entering keeps all views in step, makes the name mean the new vnode and changes no other name |
| NameCacheRuns.StepSeen | kernel/kern/vfs_cache.c:378-1453 | what each step does to the meaning of every name |
| NameCacheRuns.FreshInv | kernel/kern/vfs_cache.c:1105-1115 | an empty cache meets the invariant |
| NameCacheRuns.EveryRunKeepsInv | kernel/kern/vfs_cache.c:378-1453 | tree, vnode lists and LRU lists describe the same entries with true counts at every point of every run |
| NameCacheRuns.LastEntryWins | kernel/kern/vfs_cache.c:530-636 | a lookup gives the last entry for that name unless it was removed |
| NameCacheRuns.Names.LookupEntry | kernel/kern/vfs_cache.c:427-478 | the walk down the tree computes exactly the specified search and activates an inactive hit |
| NameCacheRuns.Names.Lookup | kernel/kern/vfs_cache.c:530-636 | a hit tells the truth about the name; exactly when there is one; and an entry that must not stay is removed |
| NameCacheRuns.Names.RemoveEntry | kernel/kern/vfs_cache.c:378-422 | in place, exactly the specified removal |
| NameCacheRuns.Names.EnterName | kernel/kern/vfs_cache.c:914-1008 | in place, exactly the specified entry |
| NameCacheRuns.Names.Revlookup | kernel/kern/vfs_cache.c:840-909 | the scan that stops at dots comes to the first nameable entry of the vnode whenever there is one and records the hit; its directory is returned if the name fits and a hold can be taken, else the error the code gives |
| NameCacheRuns.Names.PurgeChildren | kernel/kern/vfs_cache.c:1237-1250 | exactly the entries of that directory go |
| NameCacheRuns.Names.PurgeParents | kernel/kern/vfs_cache.c:1179-1231 | exactly the entries for that vnode go |
| NameCacheRuns.Names.Balance | kernel/kern/vfs_cache.c:1346-1383 | the loop computes exactly the specified balancing |
| NameReclaim.ReclaimKeeps | kernel/kern/vfs_cache.c:1394-1453 | reclaiming keeps the views in step, takes at most the given number of entries and none of a busy directory, and leaves the others as they were |
| NameReclaim.ReclaimTakesOldest | kernel/kern/vfs_cache.c:1420-1450 | if none of the n oldest inactive entries is of a busy directory, n turns take exactly those |
| NameCacheRuns.Names.Reclaim | kernel/kern/vfs_cache.c:1394-1453 | the loop does exactly the specified reclaiming, for the number of turns the code computes |
| NameLocks.FreshInv | kernel/kern/vfs_cache.c:1105-1115 | before anything is entered the locking invariant holds |
| NameLocks.StepKeepsInv | kernel/kern/vfs_cache.c:378-1453 | every separate lock region of entering, removing, reclaiming and looking up keeps the locking invariant |
| NameLocks.EveryRunKeepsInv | kernel/kern/vfs_cache.c:378-1453 | the same over every interleaving of them |
| NameLocks.TouchesWhatIsThere | kernel/kern/vfs_cache.c:962-1007 | no region touches a freed entry or takes one out of a view it is not in: not an activation by a lookup or reverse lookup, and not reclaim after it dropped the LRU lock |
| NameLocks.UnlockedViewsAgree | kernel/kern/vfs_cache.c:378-422 | in a directory that is not write-locked, tree, LRU and vnode lists hold the same entries, one for each name |
| SimpleHook.StepKeepsInv | kernel/kern/kern_hook.c:500-632 | every step of runner, establishers and removers keeps the list, walk and handshake invariants |
| SimpleHook.EveryRunKeepsInv | kernel/kern/kern_hook.c:500-632 | the same at every point of every run |
| SimpleHook.FreshInv | kernel/kern/kern_hook.c:467-481 | an empty list meets the invariant |
| SimpleHook.RunIsComplete | kernel/kern/kern_hook.c:500-564 | in a run each hook of its start has exactly one turn and runs, once, if and only if it has not been removed by then; no other hook runs and nothing is freed |
| SimpleHook.NothingFreedInWalk | kernel/kern/kern_hook.c:582-632 | no node is freed or unlinked while the hooks are being run |
| SimpleHook.GoneForGood | kernel/kern/kern_hook.c:582-632 | once a removal has returned to another thread the callback is not running and never runs again |
| SimpleHook.NoLostWakeup | kernel/kern/kern_hook.c:524-548 | a thread waiting for a callback to end is woken already, or the runner is still in or just behind that hook |
| SimpleHookList.HookList.Establish | kernel/kern/kern_hook.c:566-580 | in place, exactly the establish step; the invariant is kept and a run under way does not come to the new hook |
| SimpleHookList.HookList.Disestablish | kernel/kern/kern_hook.c:582-632 | in place, exactly the removal step; the caller must wait if and only if another thread is running the callback, and otherwise it is gone for good unless the caller is the runner |
| SimpleHookList.HookList.NextCallback | kernel/kern/kern_hook.c:518-520 | the loop finds the first hook from there on that was not removed |
| SimpleHookList.HookList.Sweep | kernel/kern/kern_hook.c:551-562 | the loop does exactly the sweep step: the removed nodes, and no others, are unlinked and freed |

## Left out

- Callouts: migration to another CPU, `callout_halt` and its sleep queue, `callout_bind`, statistics counters.
- vmem: imports, quantum caches, refilling spare tags from the pool, sleeping for space, private boundary tags (`BT_F_PRIVATE`), and destruction. An allocation or addition with four or fewer spare tags left fails, as with `VM_NOSLEEP` and an empty pool.
- VmemSearch.XallocIsRight: for requests whose block is one vmem_fit answers rightly (`Roomy`); `ChooseIsRight` and `FitAtTheTop` say exactly which, and `SpansBelowTop` gives a condition on the spans.
- VmemFree.XfreeKeepsInv: the release callback is not modelled; the span's header and tag leaving the arena stand for it.
- VmemSearch.ChooseIsRight: where the assertion of `InstantListExistsIff` fails, the search goes on as without assertions: instant fit finds nothing and best fit follows.
- Vmem.Vmem.Xalloc: two spare tags are demanded for every request, as in the code, but `VM_POPULATING` is not modelled.
- All-mount suspend: growing the saved array by doubling, `vfs_busy` reference counts other than the session's own holds, and what suspension and sync do inside a filesystem.
- Timecounter: PPS, `tc_detach`, `tc_setclock`, the nanosecond caches, and the internals of NTP.
- TimeSeqlock.ReaderSeesOneHand: memory barriers are taken to give sequential consistency.
- Run queues: idle migration and balancing, offline CPUs, `sched_bestcpu`, the stock part of `sched_takecpu`, statistics.
- Device walks: unit arrays (`cd_devs`), device locks and the detach protocol before its last region; `DEVITER_F_SHUTDOWN` is a writing walk like any other.
- LWP suspend: debugger suspension, core dumps, signals, and the sleep queue's own locking; stopping by a signal and setting `LW_WEXIT` or `LW_WCORE` are environment steps. `suspendsched` is one step per LWP, without its process state.
- Name cache: permission caching, statistics, `cache_lookup_linked`'s lock chaining, name buffers, the wrong-way locking of `cache_purge_parents`, and tree rebalancing; keys are for 64-bit pointers with an 11-bit length field.
- NameCacheRuns.Names.PurgeParents: a directory lock that cannot be taken at once only delays the loop and is not modelled.
- Simple hooks: `simplehook_destroy`, `simplehook_has_hooks` and the older shutdown, mountroot and power hook lists.
- The rest of the kernel and all of userland.
