# Verified model of the sched_ext arena library

A Dafny model of the data structures that sched_ext schedulers share in BPF arenas, of the cgroup
bandwidth controller built on them, and of the start and resume path of the scheduler catalog.
Pointers are addresses in a map of cells, objects are classes whose methods update their fields,
and concurrent protocols are state machines whose steps are single memory accesses of one thread.

| files | what they model |
|---|---|
| `Options`, `RedBlack` | values that may be missing; red-black trees threaded through an arena; trees, paths and memory |
| `Time`, `EdqTree`, `EdqSearch`, `Edq` | the eligible deadline queue (EDQ) |
| `Lifetime`, `LifetimeCalls` | the membership and hold protocol that lets a task be freed |
| `RbSwitch`, `RbShape`, `RbTree`, `Atq` | the plain red-black tree and the task queue over it |
| `SpinLock`, `SpinLockPeek`, `SpinLockProof`, `SpinLockExact` | the queued arena spinlock |
| `BuddyTree`, `BuddyLists`, `Buddy`, `BuddySizes`, `BuddyLaws` | the buddy allocator |
| `CgroupRollup`, `CgroupQuota`, `CgroupBudget` | the cgroup CPU bandwidth controller: accounting, quotas and budgets |
| `CgroupReserve`, `CgroupItems`, `CgroupSolo`, `CgroupClaims`, `CgroupStale` | its reservation of contexts for cgroups that may need one later |
| `CgroupTeardown`, `TeardownCalls`, `CgroupRebuild` | its put-aside queues and their teardown |
| `IndexAllocator`, `Urcu` | the index allocator and its deferred frees |
| `EnvFile`, `Resume` | the environment file of the scheduler unit, and starting and resuming from it |

A queue operation carries a tree three times: as cells of memory, as a value, and as the sequence of
its entries in order. A loop that walks up parent pointers is proved with a path (the way up from a
hole) and the subtree that fills it. A protocol is proved with an invariant that every step of every
thread keeps, so the results hold for all runs with any number of threads. For two of the protocols
the history of each call is kept beside the run, and a call that has returned is shown to have
written exactly what it was called for.

These properties turned out to hold under a condition only, and are stated as equivalences:

- The spinlock excludes on every machine but those with exactly 16384 cpus, a number that the guard
  at `scheds/include/bpf_arena_spin_lock.h:84` lets through: the first queue node of the last cpu
  then has the tail code 0, which means that nobody is queued. `SpinLockExact.Overlap` is the run.
- A cgroup whose init returned without a context always finds one later if at most two inits with a
  quota overlap and none of them overlaps a materialization, or if there are no such inits; every
  laxer rule has a run in which it finds none, because a claim reads the counter and its floor one
  after the other (`CgroupStale.StaleClaim`, `CgroupStale.StaleAmongInits`). With claims in one step
  it would always find one (`CgroupReserve.AtomicClaims`).
- No parked task is stranded by a teardown if a cgroup is not built while it is torn down, or not torn
  down twice at a time. If both may happen, as with a failed build that is tried again, a teardown
  that was overtaken unpublishes the new context and recycles the old one, because it deletes by key
  what it looked up before (`CgroupRebuild.StaleTeardown` is the run).
- The order of a buddy allocation is large enough up to 2^63 bytes; above, the power of two wraps.
- The normalised quota is the least that grants the share asked for if its computation fits into 64
  bits.
- A release of a block keeps a buddy chunk right exactly if the block is live: a second release links
  it into its free list twice.
- A free keeps the index tree right exactly if the index is in use or its leaf does not exist: the
  code does not ask, and a free of a free index is counted twice
  (`IndexAllocator.FreeWithoutAlloc`).
- An index comes back with an earlier generation exactly if it was freed a multiple of 2^32 times in
  between.
- What a start writes is resumed exactly if the first search directory that has the scheduler is fit
  to configure. The directory `/usr//bin` is a counterexample (`Resume.DoubledSlash`).

Where code and comments differ the model follows the code: the scheduler path is checked for `..`
but not for `.` between slashes, since the components of a path leave single dots out
(`rust/scx_catalog/src/catalog.rs:454-462`).

## Model

| member | source | states |
|---|---|---|
| Edq.Edq.Insert | lib/edq.bpf.c:397-457 | a task in no queue is added at its (deadline, arrival) place and nothing else moves; order, parent links, black root, no red-red edge, equal black heights, exact minimums at every node, first, first deadline, count and least slice all hold again; a dead or queued task is refused and nothing changes |
| EdqTree.ArrivalOrder | lib/edq.bpf.c:24-35 | tasks of equal deadline stand in order of arrival: whatever stands behind the newest entry has a later deadline |
| EdqTree.LeastSliceIs | lib/edq.bpf.c:52-68 | the least slice that the queue keeps is that of a queued task and at most that of each |
| Edq.Edq.RemoveLocked | lib/edq.bpf.c:296-395 | exactly the given task leaves the in-order sequence, through successor splice, early-stopping propagation and rebalancing, and every invariant of the queue holds again; its node is left without links; a task that is not in this queue is refused |
| Edq.Edq.Rotate | lib/edq.bpf.c:70-123 | a rotation in place keeps the entries, the other nodes and the exactness of all cached minimums |
| Edq.Edq.Propagate | lib/edq.bpf.c:130-144 | stopping at the first unchanged minimum leaves every cached minimum up to the stop node exact |
| Edq.Edq.PropagateStep | lib/edq.bpf.c:130-144 | a node whose cached minimums did not change proves all caches above it exact |
| Edq.Edq.InsertFixup | lib/edq.bpf.c:147-199 | from a red leaf in a balanced tree the loop reaches a balanced tree with a black root and the same entries |
| Edq.Edq.EraseFixup | lib/edq.bpf.c:205-277 | from a hole that is one black node short the loop reaches a balanced tree with a black root and the same entries |
| Edq.Edq.FirstEligible | lib/edq.bpf.c:487-508 | the pruned descent returns what a linear scan for the first eligible entry returns, or null |
| EdqSearch.MinEligDecides | lib/edq.bpf.c:32-35 | the minimum eligibility of a subtree is at most the cutoff if and only if a scan of the subtree finds an eligible entry |
| Edq.Edq.TryPeekNext | lib/edq.bpf.c:704-752 | a taken lock gives -EBUSY and changes nothing; otherwise the cursor gets the first entry whose key is beyond it and stands behind it afterwards, or starts again when there is none, and that task's hold count, and no other, goes up by one |
| Edq.Edq.PeekNext | lib/edq.bpf.c:719-745 | the descent ends at the first entry in order whose key is beyond the cursor, or at none |
| EdqSearch.CursorAtEntry | lib/edq.bpf.c:717-745 | in a sorted queue, a cursor that begins at a queued key finds that entry, one that stands behind it finds the entry after it or none, and one without a place the first |
| EdqSearch.CursorBetween | lib/edq.bpf.c:717-745 | a cursor of either kind at a key that is not queued finds the first entry whose key comes later, or none |
| EdqSearch.CursorHasPlace | lib/edq.bpf.c:717-745 | every key in the window is that of an entry or has such a place between entries |
| EdqSearch.PassRises | lib/edq.bpf.c:698-752 | within one pass keys rise strictly although tasks join and leave between the steps |
| EdqSearch.PassVisitsAll | lib/edq.bpf.c:698-752 | over an unchanged queue a pass returns every entry once, in order, and only then resets |
| Edq.Edq.Pop | lib/edq.bpf.c:510-563 | pops the first entry in order, which is then in no queue and held once more if a hold was asked for, or gives null with nothing changed when the queue is empty |
| Edq.Edq.PopFirstEligibleOrFirst | lib/edq.bpf.c:580-597 | pops the first eligible entry, or the first entry when none is eligible, with a hold if one was asked for |
| Edq.Edq.constructor | lib/edq.bpf.c:767-782 | an empty queue over tasks that are in no queue and held by nobody meets every invariant |
| Edq.Edq.Rebase | lib/edq.bpf.c:24-35 | validity does not depend on which half range of stamps the entries are placed in: a queue valid for one is valid for every other that holds its entries |
| Time.WindowOrder | scheds/include/scx/common.bpf.h:688-727 | inside one half range the wrapping comparisons are the order of the distances from its start |
| Time.WrapsAround | scheds/include/scx/common.bpf.h:688-727 | outside a half range they are no order: three stamps can each come before the next |
| Time.TimeDelta | scheds/include/scx/common.bpf.h:672-675 | the time is less than 2^63, positive exactly if the first stamp comes after the second and not half the range away, and then leads from the second stamp to the first |
| Time.WindowDelta | scheds/include/scx/common.bpf.h:672-675 | inside one half range it is the difference of the distances from its start, or zero |
| Lifetime.LinkedExactly | lib/edq.bpf.c:397-415 | in every run, while a queue's lock is free, a task is linked there if and only if its edq field names that queue |
| Lifetime.OneWorker | lib/edq.bpf.c:510-549 | in every run at most one thread works on a task's links, and no pop finds that its task has gone |
| Lifetime.DeadForever | lib/edq.bpf.c:386-394 | from every reachable state, a dead task stays dead, is never linked again and its hold count never rises |
| Lifetime.DetachIsFinal | lib/edq.bpf.c:801-834 | once a detach has returned, nobody holds the task, no queue links it and no thread works on it, then and in every continuation |
| LifetimeCalls.Returned | lib/edq.bpf.c:397-597 | in every run an operation that has returned has written exactly what its call is for: an insert has claimed and linked the task, a remove, a fini and a pop have unlinked it and left it in no queue, a detach has latched it dead, a pop or a peek has taken its hold; or it has written nothing and there was a moment since the call at which there was nothing to do, which for a fini means that the task was in no queue |
| LifetimeCalls.DeadByDetach | lib/edq.bpf.c:386-394 | in every run a task is dead only if some thread has called for its detach |
| LifetimeCalls.DetachAwaits | lib/edq.bpf.c:831-833 | in every run a detach that has latched its task goes on exactly when nobody holds the task |
| RbTree.Rbtree.InsertNode | lib/rbtree.bpf.c:257-375 | by mode and presence of the key: the node is put in front of all entries that are not smaller, replaces the entry of its key in place, or is refused with the tree unchanged; order, no red-red edge and equal black heights hold again, the root may be red |
| RbTree.Rbtree.RemoveNode | lib/rbtree.bpf.c:574-764 | exactly the given node leaves the in-order sequence, also when it first trades places with the next node and that is its right child; balance and order hold again and the call succeeds |
| RbTree.Rbtree.Switch | lib/rbtree.bpf.c:426-525 | two nodes of a tree trade places: every link between cells is the old one with the two addresses exchanged, keys stay with their nodes, colours with their places |
| RbSwitch.SwitchExchanges | lib/rbtree.bpf.c:503-525 | trading cells and telling both sets of neighbours comes to exchanging two addresses everywhere, whatever the two nodes are to each other |
| RbTree.Rbtree.Replace | lib/rbtree.bpf.c:473-496 | a node from outside takes the place of one in the tree; a node that has links is refused |
| RbTree.Rbtree.Rotate | lib/rbtree.bpf.c:91-129 | the child on the other side takes the place of the node and the entries keep their order; without such a child nothing happens |
| RbTree.Rbtree.InsertFixup | lib/rbtree.bpf.c:308-346 | from a red leaf the loop reaches a balanced tree with the same entries |
| RbTree.Rbtree.EraseFixup | lib/rbtree.bpf.c:623-751 | from a hole that is one black node short the loop and the final rotations reach a balanced tree with the same entries |
| RbTree.Rbtree.FindNode | lib/rbtree.bpf.c:131-153 | ends at a node of the key if there is one, and otherwise at the parent of the place where the key belongs |
| RbTree.Rbtree.LeastUpperBound | lib/rbtree.bpf.c:155-174 | ends at the parent of the empty place in front of all entries that are not smaller |
| RbTree.Rbtree.Find | lib/rbtree.bpf.c:176-193 | finds a value if and only if some entry has the key, and the value is that of such an entry |
| RbTree.Rbtree.LeastItem | lib/rbtree.bpf.c:402-423 | the first entry in order, or no entry |
| RbTree.Rbtree.Pop | lib/rbtree.bpf.c:787-808 | takes out the first entry in order and leaves the rest |
| Atq.Atq.Insert | lib/atq.bpf.c:55-96 | one outcome per guard (full, wrong kind of key, dying, already queued, done); when done the task stands in front of all keys that are not smaller, and in a FIFO queue at the very end while fewer than 2^64 tasks have been inserted |
| Atq.Atq.Remove | lib/atq.bpf.c:130-154 | exactly the task leaves, if it says that it is queued here, and is left free or dead |
| Atq.Atq.Pop | lib/atq.bpf.c:176-210 | the popped task has the least key, is free again and is held once more if a hold was asked for; the others keep their order |
| Atq.Atq.Peek | lib/atq.bpf.c:212-229 | the task a pop would take, or null |
| SpinLock.TailRoundTrip | scheds/include/bpf_arena_spin_lock.h:121-137 | encoding and decoding the tail round-trips if and only if the cpu is below 16383; the code is 0 only for the first node of cpu 16383 |
| SpinLock.WordHoldsCode | scheds/include/bpf_arena_spin_lock.h:121-129 | the shifts and masks on the 32-bit word put the tail code of the node in the upper half and nothing in the lower |
| SpinLock.WordNamesNode | scheds/include/bpf_arena_spin_lock.h:131-137 | for every lock word, the cpu and index that the shifts and masks read out are those of the tail in its upper half, an empty cpu field giving the largest word |
| SpinLockProof.Keep | scheds/include/bpf_arena_spin_lock.h:242-531 | every step of every thread keeps the invariant: one owner, the tail is zero or names the last queued node, links and hand-offs follow the queue |
| SpinLockProof.Reached | scheds/include/bpf_arena_spin_lock.h:242-531 | every run of any number of threads on any cpus and nesting levels from an unused lock meets the invariant |
| SpinLockProof.HeadOnly | scheds/include/bpf_arena_spin_lock.h:379-455 | a queued thread keeps the tail from being zero, and a queued thread past waiting is the head of the queue |
| SpinLockProof.Fifo | scheds/include/bpf_arena_spin_lock.h:379-455 | of two queued threads the one that published later never owns the lock before the other has |
| SpinLockProof.TailCodes | scheds/include/bpf_arena_spin_lock.h:121-137 | with fewer than 16384 cpus the codes of queue nodes are nonzero, decode to their node and are pairwise different |
| SpinLockProof.Refused | scheds/include/bpf_arena_spin_lock.h:502-518 | with more than 16384 cpus nobody ever gets past the first check |
| SpinLockPeek.PeekEnds | scheds/include/bpf_arena_spin_lock.h:260-271 | however the others move, a thread that waits for a hand-over between pending and locked takes at most one step more than it has looks left, and goes on with the word it then sees |
| SpinLockPeek.PeekStep | scheds/include/bpf_arena_spin_lock.h:260-271 | it starts and goes on waiting exactly while the word is that of a hand-over and it has looks left |
| SpinLockPeek.ContendedQueues | scheds/include/bpf_arena_spin_lock.h:273-277 | a thread that has seen a pending thread or a tail goes to the queue and leaves the lock word alone |
| SpinLockExact.Overlap | scheds/include/bpf_arena_spin_lock.h:121-129 | a run on 16384 cpus in which two threads hold the lock at once |
| SpinLockExact.ExclusiveExactly | scheds/include/bpf_arena_spin_lock.h:242-531 | at most one thread is between lock and unlock in all runs, if and only if the number of cpus is not 16384 |
| Buddy.Chunk.Alloc | lib/alloc/buddy.bpf.c:553-626 | cuts a block of the order from the least sufficient free block and leaves every other used block alone; fails if and only if no free block is large enough; the tiling, the lists and the canonical form are kept |
| Buddy.Chunk.Release | lib/alloc/buddy.bpf.c:688-764 | from the start of a live or free block: exactly a live block leaves the used blocks and the tree is canonical again, with no two free buddies; the chunk is right afterwards if and only if the block was live, and after a second release no lists of any blocks fit the headers |
| Buddy.Chunk.Coalesce | lib/alloc/buddy.bpf.c:718-757 | merging ends below the top order because some block stays used, at a place whose buddy is not free, with all used blocks as they were |
| Buddy.Chunk.Carve | lib/alloc/buddy.bpf.c:434-474 | a new chunk has its metadata pinned in blocks that cover exactly the first items and the rest free in canonical form; it fails exactly when the metadata has 2^16 bytes or more |
| Buddy.Chunk.AddLeftovers | lib/alloc/buddy.bpf.c:296-319 | the halves cut off a block are on the lists of their orders, beside all blocks that were there |
| Buddy.Chunk.AddFreelist | lib/alloc/buddy.bpf.c:233-249 | the doubly linked lists hold the free blocks they held and the new one, at its recorded order; one that is listed already leaves headers that no lists fit |
| BuddyLists.PushedTwice | lib/alloc/buddy.bpf.c:233-249 | pushing an entry that is in its list makes the pointers run in a ring, so no lists of any blocks fit them |
| Buddy.Chunk.RemoveFreelist | lib/alloc/buddy.bpf.c:251-272 | the doubly linked lists hold the free blocks they held but for the one taken out |
| Buddy.Chunk.SetOrder | lib/alloc/buddy.bpf.c:118-150 | an order or an index out of range is refused, and otherwise one order changes |
| Buddy.OrderStored | lib/alloc/buddy.bpf.c:118-167 | writing one packed order changes that item's order and no other's |
| BuddyTree.Tiles | lib/alloc/buddy.bpf.c:89-167 | every item of the chunk lies in exactly one block |
| BuddyTree.Disjoint | lib/alloc/buddy.bpf.c:553-626 | two blocks of a chunk do not overlap |
| BuddyTree.Determined | lib/alloc/buddy.bpf.c:688-764 | the used blocks determine a canonical chunk, so the free sets depend on the live blocks only |
| BuddyLaws.FreeAllRestores | lib/alloc/buddy.bpf.c:688-764 | after any history of allocations and frees that ends with nothing live, the chunk is as it was |
| BuddyLaws.AllocThenFree | lib/alloc/buddy.bpf.c:553-626 | allocating and freeing again restores every free set |
| BuddyLaws.RoomExactly | lib/alloc/buddy.bpf.c:562-572 | some free block is large enough if and only if some aligned run of that size is clear |
| BuddyLaws.AddressRoundTrip | lib/alloc/buddy.bpf.c:169-193 | an address gives back its chunk and its item and is aligned to the size of its block |
| BuddySizes.OrderFits | lib/alloc/buddy.bpf.c:274-294 | the order of a request is the least whose blocks are large enough, if and only if the request is at most 2^63 bytes |
| CgroupRollup.Accounting.UpdateRuntime | lib/cgroup_bw.bpf.c:2079-2190 | the one pass with per-level accumulators stores with every managed cgroup below the root what the recursive definition gives it and changes nothing else |
| CgroupRollup.RolledUp | lib/cgroup_bw.bpf.c:2013-2190 | a managed cgroup under the height cap ends with the sum of the runtimes of managed descendants and itself, and is throttled if that reaches its budget |
| CgroupRollup.SumMoves | lib/cgroup_bw.bpf.c:2013-2056 | the runtime of a cgroup moves by what that of one of its LLCs moves, whichever it is |
| CgroupRollup.TotalMoves | lib/cgroup_bw.bpf.c:2079-2190 | the total of a subtree moves by what the runtime of one cgroup in it moves, if that is under the height cap, and else not at all; with TotalNothing this makes it the sum over exactly those cgroups |
| CgroupRollup.TotalNothing | lib/cgroup_bw.bpf.c:2079-2190 | a subtree without runtimes has the total zero |
| CgroupRollup.OnlyThose | lib/cgroup_bw.bpf.c:2078-2190 | the pass stores nothing with any other cgroup |
| CgroupRollup.Accounting.AbsorbDeeper | lib/cgroup_bw.bpf.c:2058-2076 | takes the sum of all deeper levels and clears them, and only them |
| CgroupRollup.DeeperMoves | lib/cgroup_bw.bpf.c:2058-2076 | what is taken from the accumulators is the sum of exactly the levels from the given one down |
| CgroupRollup.Accounting.ThrottleBelow | lib/cgroup_bw.bpf.c:2192-2304 | exactly the limited cgroups with a throttled ancestor below the root become throttled, although the flags change during the walk |
| CgroupQuota.Controller.EffParent | lib/cgroup_bw.bpf.c:1377-1394 | the nearest managed proper ancestor |
| CgroupQuota.Controller.RepointSubtree | lib/cgroup_bw.bpf.c:1787-1832 | comparing one id with every context of the subtree re-establishes all effective parents and bounds |
| CgroupQuota.HasWalk | lib/cgroup_bw.bpf.c:1787-1832 | every subtree of every valid tree has a walk that visits each cgroup once and parents first |
| CgroupQuota.Controller.UpdateBound | lib/cgroup_bw.bpf.c:1274-1307 | if the effective parent is the nearest managed ancestor and its bound is right, the new bound is the least quota over the cgroup and all its managed ancestors; in any case it is at most the quota and the parent's bound and equal to one of them, and nothing else changes |
| CgroupQuota.NormalizedExactly | lib/cgroup_bw.bpf.c:1249-1271 | the normalised quota is the least that grants the share of time asked for, if and only if the product and the rounding fit into 64 bits |
| CgroupQuota.CapsNobody | lib/cgroup_bw.bpf.c:1978-1988 | a cgroup with an infinite quota has the bound of its effective parent, so it caps nobody |
| CgroupQuota.Controller.Init | lib/cgroup_bw.bpf.c:1537-1688 | one result per guard (too deep, too many contexts, no memory, done) and a refused cgroup changes nothing; a finite quota adds one context with the normalised quota, an infinite one none; all effective parents are nearest managed ancestors and all bounds minimal |
| CgroupQuota.Controller.Manage | lib/cgroup_bw.bpf.c:1844-1925 | materializing a context in the middle of the tree keeps all effective parents and bounds right and all other quotas; a refused one leaves everything as it was |
| CgroupQuota.Controller.Set | lib/cgroup_bw.bpf.c:1946-2011 | a change of quota keeps all effective parents and bounds right, stores the normalised quota with the cgroup and no quota elsewhere, and with an infinite quota leaves the cgroup the bound of its effective parent; one that needs a context and cannot have it changes nothing |
| CgroupQuota.Controller.Exit | lib/cgroup_bw.bpf.c:1736-1779 | a childless cgroup leaves and everything else stays right |
| CgroupQuota.NearestAfter | lib/cgroup_bw.bpf.c:1787-1832 | a new context becomes the nearest managed ancestor of exactly those descendants that had the same one as itself |
| CgroupQuota.LeastIsCapped | lib/cgroup_bw.bpf.c:1274-1307 | the bound over all managed ancestors is the quota capped by the bound of the nearest one |
| CgroupQuota.LeastIsMinimum | lib/cgroup_bw.bpf.c:1274-1307 | the bound is the quota of a managed ancestor-or-self and at most that of each |
| CgroupBudget.SpendingBounded | lib/cgroup_bw.bpf.c:2667-2736 | total runtime is at most what was handed out plus the overspending of the last interval, for every sequence of intervals |
| CgroupBudget.LongRun | lib/cgroup_bw.bpf.c:2667-2736 | over n intervals of one bound, runtime is at most n bounds plus the burst credits plus the last interval's overspending |
| CgroupBudget.CreditsBounded | lib/cgroup_bw.bpf.c:2700-2736 | between two resets the credits and what is left of the burst sum to the burst |
| CgroupBudget.BurstInRange | lib/cgroup_bw.bpf.c:2700-2736 | the burst that remains stays between zero and the burst |
| CgroupBudget.Context.Replenish | lib/cgroup_bw.bpf.c:2667-2786 | the new budget is the bound, less exactly what was spent beyond the old budget, plus what was left of the quota as far as the burst goes, nothing if nothing was left; the burst shrinks by that or is full again when the wrapped time since the old start reaches the period; the throttle is lifted if and only if the budget is positive, and a cgroup that was throttled, is throttled or has parked tasks is reported |
| CgroupBudget.Purses | lib/cgroup_bw.bpf.c:2712-2727 | the same case by case for the account on which the bounds above rest; without a period end and within the budget, what the burst loses the budget gains |
| CgroupReserve.Reached | lib/cgroup_bw.bpf.c:388-609 | if claims were made in one step, every run of inits, materializations and exits would keep free contexts for all that were promised one |
| CgroupReserve.AtomicClaims | lib/cgroup_bw.bpf.c:388-609 | if claims were made in one step, no cgroup that was promised a context would find none, in any run |
| CgroupItems.NoneLost | lib/cgroup_bw.bpf.c:388-609 | in every run in which no cgroup finds the lists empty, the contexts of a kind that are on the free list or with cgroups are as many as have been allocated; so what an exit or a failed claim had comes back |
| CgroupSolo.Reserves | lib/cgroup_bw.bpf.c:572-609 | by itself an init without a quota takes one reservation and adds one cgroup context and a context for each LLC to the free lists and to their counters |
| CgroupSolo.Gathers | lib/cgroup_bw.bpf.c:424-546 | by itself an init with a quota claims of each kind exactly what the lists have beyond the reserve, its own share counted in, up to a whole set, and leaves no reservation |
| CgroupSolo.Materializes | lib/cgroup_bw.bpf.c:479-556 | by itself a cgroup that gains a quota takes a whole set from lists that have one and gives up its reservation |
| CgroupSolo.Exits | lib/cgroup_bw.bpf.c:1736-1779 | by itself an exit gives back the whole set of a managed cgroup, or the reservation of one without a context, and nothing else |
| CgroupClaims.Reached | lib/cgroup_bw.bpf.c:388-609 | with claims read by read as they are, every run with at most two overlapping inits with a quota and no materialization beside them, or with no such init, keeps free contexts for all that were promised one and for all claims that have passed their check |
| CgroupStale.StaleClaim | lib/cgroup_bw.bpf.c:424-446 | a run with one init with a quota beside materializations, at whose end a cgroup that was promised a context finds none |
| CgroupStale.StaleAmongInits | lib/cgroup_bw.bpf.c:424-446 | such a run with three overlapping inits with a quota and no materialization beside them |
| CgroupStale.ReserveExactly | lib/cgroup_bw.bpf.c:1537-1925 | for each rule on which calls may overlap: in all runs that keep to it no cgroup that was promised a context finds none, if and only if the rule allows no init with a quota, or at most two at a time and no materialization beside them |
| CgroupTeardown.NoneStranded | lib/cgroup_bw.bpf.c:1154-1247 | in every run in which no pair of cgroup and LLC is built while it is torn down, or none is torn down twice at a time, each parked task is in a context that a cgroup has or that a teardown goes on emptying, and never in one that is free, or about to be freed or published |
| CgroupTeardown.MovedToRoot | lib/cgroup_bw.bpf.c:2535-2616 | in every such run, a task parked in a context that is free later has left its queue in between; each time it left, another operation had popped it, or a teardown had and, before the context was free, parked it in the root's queue or found it parked by somebody else or dead |
| TeardownCalls.Returned | lib/cgroup_bw.bpf.c:1154-1247 | in every run, under any rule, an operation that has returned has written exactly what its call is for: a put-aside has parked its task in a context that the pair had, a take has taken one task, a build has published its context, a teardown has unpublished the pair, put tasks of the context into the root's queue alone and given the context back; or nothing, or its own context back, and there was a moment since the call at which there was nothing to do |
| CgroupTeardown.KilledForGood | lib/cgroup_bw.bpf.c:2586-2601 | a task that died while it was not parked is dead ever after and never parked again |
| CgroupRebuild.StaleTeardown | lib/cgroup_bw.bpf.c:1171-1185 | a run in which a pair is torn down twice and built again meanwhile, at whose end one task is parked in a free context and another in a context that no cgroup has and nobody empties |
| CgroupRebuild.ShelteredExactly | lib/cgroup_bw.bpf.c:1154-1247 | for each rule on which calls may overlap: in all runs that keep to it no parked task is stranded, if and only if the rule forbids building a pair while it is torn down or tearing it down twice at a time |
| CgroupRebuild.MovedExactly | lib/cgroup_bw.bpf.c:2535-2616 | the same rules, and no others, make every task of a recycled context have been moved to the root or taken by somebody else |
| IndexAllocator.Allocator.Alloc | lib/sdt_alloc.bpf.c:614-698 | succeeds if and only if nodes for the tree can be had ahead, some index is free, and data can be had or the least free index has its data already; it then returns that index, and otherwise issues nothing; the 32-bit generation is that of an earlier issue of the index if and only if the index was freed a multiple of 2^32 times in between; a bit is set if and only if its subtree is full and free counts are exact |
| IndexAllocator.Allocator.FreeIdx | lib/sdt_alloc.bpf.c:459-546 | undoes an allocation and starts the next generation, with 32-bit wrap-around; an index whose leaf does not exist is refused; the tree is right afterwards if and only if the index was in use or refused, and otherwise its bits and counts fit no set of indices; a number out of range stands for its low bits |
| IndexAllocator.FreeWithoutAlloc | lib/sdt_alloc.bpf.c:459-546 | after one allocation, a free of the neighbouring index succeeds and leaves a tree that is right for no set of indices |
| IndexAllocator.Allocator.FindPath | lib/sdt_alloc.bpf.c:552-612 | the way down ends at a free index with all smaller ones in use, or every index is in use |
| IndexAllocator.Allocator.FindEmpty | lib/sdt_alloc.bpf.c:103-118 | the first clear bit, or the end |
| IndexAllocator.Allocator.MarkUsed | lib/sdt_alloc.bpf.c:552-612 | stopping at the first node that keeps a free slot leaves every bit and count exact for the larger set |
| IndexAllocator.Allocator.MarkAvail | lib/sdt_alloc.bpf.c:414-457 | stopping at the first node that had a free slot leaves every bit and count exact for the smaller set; an index that was free already is counted twice in its leaf |
| IndexAllocator.IndexRange | lib/sdt_alloc.bpf.c:459-546 | the indices of the tree are the numbers below 512^3 |
| Urcu.ReclaimIsSafe | lib/sdt_alloc.bpf.c:1590-1626 | in every run, the node that the reclaim takes next is seen by no read section begun before its unlinking, is not live, has not been given back already and is worked on by no free |
| Urcu.Conserved | lib/sdt_alloc.bpf.c:1514-1626 | in every run and for every node: unlinkings are landed pushes plus the push in flight, landed pushes are reclaims plus one if the node is listed, reclaims are reuses up to whether it is free, and reuses are unlinkings up to whether it is in use; so no push is lost and none is reclaimed twice |
| Urcu.AllGivenBack | lib/sdt_alloc.bpf.c:1590-1626 | from every state of a run in which no read section is open, two rounds of grace period, reclaims and flip give back every node that was unlinked |
| Urcu.DrainsOnly | lib/sdt_alloc.bpf.c:1590-1626 | in every run a node that is on the draining side at one time and has not been given back since is still there: the sides change only when that one is empty |
| Urcu.GraceBetweenFlips | lib/sdt_alloc.bpf.c:1590-1626 | in every run each read section that is open at one change of the sides has been left before the next |
| EnvFile.Render | rust/scx_catalog/src/envfile.rs:167-207 | the loop writes the text that the recursive definition of a rewrite gives |
| EnvFile.RenderParses | rust/scx_catalog/src/envfile.rs:22-35 | reading a rewritten file back gives each managed key once, with the value written, and all other assignments in order, for every text |
| EnvFile.LineReads | rust/scx_catalog/src/envfile.rs:22-35 | a line, with blanks anywhere around its parts, assigns the unquoted text behind its first equals sign to the name in front of it, exactly if that is made of ASCII letters, digits and underscores |
| EnvFile.PlainLine | rust/scx_catalog/src/envfile.rs:22-35 | a line without an equals sign assigns nothing |
| EnvFile.KeptExactly | rust/scx_catalog/src/envfile.rs:160-207 | all other lines are kept letter by letter if and only if none of them ends in a carriage return |
| EnvFile.StaysSupported | rust/scx_catalog/src/envfile.rs:38-81 | a file that is not refused is not refused after a rewrite |
| EnvFile.LineSupportedExactly | rust/scx_catalog/src/envfile.rs:54-79 | an assignment is refused exactly if it ends in a backslash or its value begins with a quote that is not closed at the end of the line |
| EnvFile.PlainSupported | rust/scx_catalog/src/envfile.rs:54-68 | a line without an equals sign that is no comment is refused exactly if it ends in a backslash |
| EnvFile.CommentSupported | rust/scx_catalog/src/envfile.rs:54-58 | a line that begins with # or ; behind blanks, and a blank line, is never refused, whatever it holds |
| EnvFile.CarriageReturns | rust/scx_catalog/src/envfile.rs:44-53 | a file is free of bare carriage returns exactly if each is followed by a line feed |
| EnvFile.FlagsRoundTrip | rust/scx_catalog/src/envfile.rs:126-130 | options written on one line split into the same options |
| EnvFile.ClosesOnTheLine | rust/scx_catalog/src/envfile.rs:92-110 | the loop with its escape flag answers yes if and only if there is a quote that is not escaped and only blanks follow the first such; inside double quotes a character behind an odd number of backslashes is escaped, inside single quotes none is |
| EnvFile.ClosesMeans | rust/scx_catalog/src/envfile.rs:92-110 | from every position, with the escape flag that belongs there, the scan decides the same |
| EnvFile.QuotedValue | rust/scx_catalog/src/envfile.rs:117-124 | a value in quotes of either kind is read without them, whatever it holds, and a value that does not begin and end with the same quote as it is |
| Resume.RoundTrip | rust/scx_catalog/src/start.rs:229-354 | for every file, catalog, environment without overrides and launch that a start accepts, a resume accepts the result with the same path and options and nothing to rewrite, if and only if the path is valid to configure and fits on a line |
| Resume.ResumesExactly | rust/scx_catalog/src/start.rs:93-128 | a launch that a start accepts is resumed as it was if and only if the first search directory that has the scheduler is absolute, without doubled slashes or .., on one line and under /usr, /bin or /sbin |
| Resume.AlwaysResumes | rust/scx_catalog/src/start.rs:93-128 | if all search directories are of that kind every launch that a start accepts is resumed as it was |
| Resume.DoubledSlash | rust/scx_catalog/src/start.rs:93-128 | a search directory under /usr for which, whatever the file held, a start succeeds and the resume of what it wrote is refused |
| Resume.PlanIsWritten | rust/scx_catalog/src/start.rs:93-128 | a launch is an executable of a search directory under the planned name, with valid options, and matches a profile or is listed |
| Resume.PlanExactly | rust/scx_catalog/src/start.rs:93-128 | a start launches the scheduler and the options of the first profile of the id, if that names a scheduler, and else the scheduler of that name without options, from the first search directory that has it; it is refused exactly if none has it or the name is no scheduler, is a tool, or is hidden and not named by a profile |
| Resume.ResumableExactly | rust/scx_catalog/src/start.rs:229-354 | a resume accepts exactly a readable environment without overrides whose scheduler is at its path in a search directory, or is found by name in the first that has it, with options in the written form, if they are those of the first profile that launches just this, or are none and the scheduler is listed |
| Resume.NameLimits | rust/scx_catalog/src/catalog.rs:470-475 | a scheduler's name is scx_ and 1 to 60 letters, digits, underscores and dashes |
| Resume.OptionLimits | rust/scx_catalog/src/catalog.rs:485-495 | an option is 1 to 256 letters, digits and a few marks, and so holds nothing that a shell or the splitting at blanks would take apart |

## Left out

- Memory order, loop budgets and timeouts (`can_loop`, -E2BIG, -ETIMEDOUT): steps are sequentially consistent and loops end by themselves.
- Liveness: no result says that a waiting thread makes progress.
- The spinlocks around the queue and controller operations are not part of the sequential classes; their callers hold the lock.
- Error branches that a well-formed structure cannot reach (a black node without a sibling, a failed insertion into a tree that takes duplicates) are absent: the cells they guard are read without the guard.
- Edq.Edq.Insert: needs a sequence number below 2^64 - 1, since ties are decided by a counter that must not wrap.
- The task detach and cancel loops of the task queue, which have the form that `Lifetime` models for the deadline queue.
- `scx_edq_try_peek_nth_hold` and the other try variants, which add a trylock to operations that are modelled, as `TryPeekNext` shows it.
- Trees that allocate their nodes (RB_ALLOC) and their free list: nodes belong to the caller here.
- The chunk list of the buddy allocator, page allocation, poisoning, and the allocated bitmap as packed words (it is a sequence of booleans).
- Buddy.Chunk.Release: takes the start of a live or free block. At other aligned addresses the code reads a header out of the metadata or out of the data of a live block, which are not part of the model; the check that turns away an unaligned address, at `lib/alloc/buddy.bpf.c:699-702`, comes before it.
- Buddy.Chunk.Alloc: assumes that the variable of the `bpf_for` loop at `lib/alloc/buddy.bpf.c:562` equals the end of its range once the loop has run out, as the test at line 567 does. The macro comes from the toolchain's headers, where the variable keeps its last value; a chunk with no block that is large enough would then not be noticed there.
- CgroupRollup.Accounting.ThrottleBelow: does not model the interval estimate of the return value or the race with the top half of the replenish timer.
- CgroupBudget.LongRun: budgets are unbounded integers, so overflow of s64 is not modelled.
- CgroupBudget.Context.Replenish: the moving average of the consumption rate, which only steers the interval estimate, is left out.
- CgroupQuota.Controller.Init: all cgroups are below the root of the controller; the check for a cgroup outside it comes first.
- CgroupStale.ReserveExactly: pushes and pops of the free lists are single steps, sleepable allocations succeed, and the root's own context is not among the counted ones.
- CgroupRebuild.ShelteredExactly: builds and teardowns are those of one pair of cgroup and LLC; a call of the controller makes one for each LLC in turn, and a build that fails makes teardowns.
- Child pointers of the index tree: a node is named by its level and its number there.
- The doorbell that tells user space about pending frees, and the user-space side of the grace period, which is a step of the model.
- Permissions, the systemctl calls, the manager environment and UnsetEnvironment= around a start; the layers below the file are a map.
- Resume.RoundTrip: paths are strings; names that are not UTF-8 are not modelled.
- The B-tree, the work-stealing queue, the older allocators in `lib/sdt_alloc.bpf.c`, the heap, bitmap and topology helpers, which would add easier members or do not keep a clean contract.
