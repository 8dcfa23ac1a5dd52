# Host-side coordination of NCCL, modelled and proved in Dafny

This project models the part of NCCL that decides, on the host, who talks to whom, in what
order and in which memory. It covers distributed protocols, linked structures kept in shared
arrays, allocators, and schedules built by arithmetic. `dafny verify dfyconfig.toml` checks all
of it.

The form follows the source. Protocols between ranks, threads or streams are state machines
whose steps are the atomic actions of the code, and what is stated about them holds in every
run, for any number of ranks and any interleaving. Objects that the code updates in place are
classes, and loops are loops with invariants. Arithmetic helpers are functions.

| files | subject |
|---|---|
| `RootMatch`, `RootRepeats`, `BootstrapRing` | the bootstrap root thread, what repeated check-ins do to it, and the ring that all roots and a grow stitch together |
| `Barrier`, `RingIndex`, `RingAllGather` | the dissemination barrier and the two ring allgathers |
| `Messages`, `AsyncSend`, `Receive` | asynchronous sends ordered per peer and tag, and the unexpected-connection queue |
| `ProxyOps`, `ProxyPool`, `ProxyArgs`, `Links` | the pool of proxy operations (protocol, then its array links) and the two-dimensional work list |
| `Space` | the allocator that represents a set of integers by sorted cuts |
| `ShadowTable`, `ShadowPages`, `ShadowPool` | device objects with host shadows: hash table, pages, whole pool |
| `CeSync`, `CeLaunch` | the copy-engine flag barrier, and the host side that issues it |
| `ChunkPlan`, `HierRing`, `HierGather`, `HierAlltoAll`, `BatchChunks` | chunk plans, the rounds of the hierarchical ring allgather, its memory byte by byte on all ranks, the hierarchical alltoall, chunked copy batches |
| `P2pSchedule`, `P2pPlanner` | the all-to-all schedule and the in-place algorithm that builds it |
| `LsaSize`, `SymRegister`, `SymRegistry` | LSA teams and symmetric registration on all ranks, and one rank's registry |
| `MemManager` | tracking, suspending and resuming dynamic memory |
| `Arith`, `Seqs` | shared facts |

Assumptions about what lies outside the model:

- Sockets are FIFO, and a connection made after another send has completed is accepted later.
- Connect infos are nonzero, and so are the addresses at which ranks listen for a root, since the
  code uses zero for "absent". A rank without a root (in a grow, one of the parent's) listens at
  none and sends a zero address.
- A stream executes its operations in order.
- A remote put writes its data and then raises its signal, and puts between two ranks on one
  context take effect in order.
- A receive buffer lies at one offset of its symmetric window on all ranks.
- Memory returned by an allocation call is not in use.
- Driver calls succeed, except where an operation models a failure.
- Integers are unbounded.

Where the code does not have a property that one would expect of it, the model keeps the code,
gives an example, and states exactly when the property holds:

- The copy-engine sync is a barrier exactly when no sync waits for a value that its flag array
  still holds. With the numbering of the host this fails when a captured sync is the next on its
  array after the very first sync (`CeSync.BarrierIff`, `CeSync.MixedIff`,
  `CeSync.FirstThenGraph`, `CeLaunch.InOrderIsSynchronized`).
- Among syncs that are barriers, a flag that is still waited for can be overwritten or reset exactly
  when two successive ones use one array (`CeSync.FlagsKeptIff`). Repeating a captured launch keeps the two arrays alternating
  exactly when it issues an even number of syncs (`CeLaunch.EvenNeeded`), which captured launches
  do. A collective outside a graph on a driver without batched copies can issue an odd number; a
  graph captured before it is then out of turn, and replaying it can lose a flag
  (`CeLaunch.LaunchesKeepFlagsIff`, `CeLaunch.OddThenReplay`, `CeLaunch.ReplayLosesFlag`).
- An allocation from the sorted-cut space also marks its alignment padding as full, unless it
  starts or ends its segment or the segment starts at zero; freeing then does not undo it
  (`Space.AllocExactIff`, `Space.FreeUndoesAlloc`, `Space.PaddingLeaks`). It does not occur with
  aligned cuts and sizes, and so symmetric registrations whose sizes are multiples of the
  granularity leave nothing behind (`SymRegister.NothingLeaks`).
- The root's duplicate test misses a second check-in exactly when the local id's predecessor had
  checked in before the first, and so had its successor or, for the extra id that has none, the
  address sent was zero, as it is when rank 0 of a grow checks in
  (`RootMatch.DuplicateUnseenIff`, `RootRepeats.RepeatMissed`, `RootRepeats.GrowRepeatMissed`).
  The root then counts the repeat and ends with a rank unanswered (`RootRepeats.RepeatStarves`).
- A chunk width below 8 KiB can make the last chunk negative (`ChunkPlan.PositiveIff`,
  `ChunkPlan.NarrowWidthFails`); the widths that the code computes are never that small. The
  bound on the last chunk is strict except for a slice of exactly one width
  (`ChunkPlan.LastBound`).

## Model

| member | source | states |
|---|---|---|
| RootMatch.BlocksTile | src/bootstrap.cc:55-100 | the ranks of one root are a block that starts where the block of the previous root ends; the blocks cover all ranks from the offset on |
| RootMatch.BlocksOrdered | src/bootstrap.cc:55-67 | blocks of different roots do not overlap |
| RootMatch.BlocksEven | src/bootstrap.cc:55-100 | of two roots the earlier has as many ranks as the later, or one more |
| RootMatch.RootOwnsRank | src/bootstrap.cc:69-86 | the root computed for a rank from the offset on is one whose block holds the rank |
| RootMatch.RootUnique | src/bootstrap.cc:69-109 | no other root's block holds the rank |
| RootMatch.CollectInv | src/bootstrap.cc:365-444 | for every order in which local ids check in, the tables and messages are determined by who has checked in: of a served id and its successor exactly the side that came first has its entry, which stays when the other comes, and each pair of which both have come has been answered |
| RootMatch.EveryoneAnsweredOnce | src/bootstrap.cc:365-460 | when each expected local id has checked in once, in any order, every served local id has been sent exactly one message, the connect info of its successor, and nothing is left in the tables to sweep |
| RootMatch.Unpaired | src/bootstrap.cc:415-441 | two entries take part in no pair: the info of a local id that no served id precedes stands in the table iff the id has checked in, and the address at the extra id is the one it sent, zero or not |
| RootMatch.DuplicateUnseenIff | src/bootstrap.cc:408-413 | for every local id that has checked in: a second check-in passes the duplicate test exactly when the id has a predecessor (with an extra id, the first has none) that had checked in before it, and its successor had checked in too or, for the extra id, its address was zero |
| RootRepeats.OnlyKnownAnswered | src/bootstrap.cc:415-441 | whatever checks in, however often, every message goes to an address of a served id that has checked in, as has its successor |
| RootRepeats.SweepTold | src/bootstrap.cc:449-462 | the same for the final sweep |
| RootRepeats.RepeatStarves | src/bootstrap.cc:442-462 | a root that has taken all the check-ins it waits for, one of them a repeat, has left a served rank without an answer |
| RootRepeats.RepeatMissed | src/bootstrap.cc:408-413 | four ranks and one root: ids 0, 2, 1 check in, a repeat of 1 passes the test, and the root has its four check-ins |
| RootRepeats.GrowRepeatMissed | src/bootstrap.cc:408-413 | a grow with one root for two ranks: id 1 and then rank 0, which sends no address, check in, a repeat of rank 0 passes the test, and the root has its three check-ins |
| RootMatch.RejectionSound | src/bootstrap.cc:393-413 | a check-in rejected as a duplicate really repeats a local id, so the arrivals are not a rendezvous in which each checks in once |
| RootMatch.EntryMeansSeen | src/bootstrap.cc:408-413 | a table entry at a local id means that it has checked in |
| RootMatch.NoLeftover | src/bootstrap.cc:452-460 | the final sweep sends nothing for a local id whose entries are gone |
| RootMatch.NothingToSweep | src/bootstrap.cc:452-460 | after a complete rendezvous the final sweep finds nothing for any local id |
| RootMatch.Serve | src/bootstrap.cc:418-441 | one check-in updates both tables in place and sends exactly as the matching function says |
| RootMatch.Sweep | src/bootstrap.cc:452-460 | the sweep sends, in order, what is left over for each served local id |
| RootMatch.BootstrapRoot | src/bootstrap.cc:341-460 | the whole root: it stops at the first mismatched, out-of-range or duplicate check-in, waits while some are missing, and for a rendezvous finishes having answered every served rank exactly once and swept nothing |
| BootstrapRing.PlainInbox | src/bootstrap.cc:965-987 | what the ranks below any bound have sent to one root: the infos of its block, then that of the first rank of the next block |
| BootstrapRing.StitchedInbox | src/bootstrap.cc:965-987 | the same for the last of several roots, whose extra info is that of rank 0 |
| BootstrapRing.InboxIsEveryLocalId | src/bootstrap.cc:965-987 | each root is sent exactly one check-in for every local id it expects |
| BootstrapRing.OrderIsRendezvous | src/bootstrap.cc:365-413 | every arrival order of a root's mail is a rendezvous: same layout, ids in range, each once |
| BootstrapRing.OneRoot | src/bootstrap.cc:365-460 | one root sends a given rank exactly one message if it serves it, else none |
| BootstrapRing.RootAnswers | src/bootstrap.cc:418-441 | the message for a rank is the connect info of the next rank, modulo the number of ranks |
| BootstrapRing.ParentMail | src/bootstrap.cc:972-975 | in a grow, ranks of the parent get exactly one message over the parent bootstrap |
| BootstrapRing.EveryRankLearnsItsSuccessor | src/bootstrap.cc:926-1006 | for any number of roots, any offset and any arrival order at every root, every rank receives exactly one next peer, that of rank + 1 modulo the number of ranks |
| BootstrapRing.NextPeer | src/bootstrap.cc:992-1006 | the next peer of a rank is a rank whose connection info is what the roots and the parent bootstrap delivered to it |
| BootstrapRing.NextPeerIs | src/bootstrap.cc:926-1006 | with distinct connection infos that is rank + 1 modulo the number of ranks |
| BootstrapRing.OneRing | src/bootstrap.cc:926-1006 | following the delivered next peers from rank 0 meets every rank exactly once in as many steps as there are ranks, and then is at rank 0 again |
| Barrier.DstInjective | src/bootstrap.cc:1627-1632 | within one barrier an ordered pair of ranks exchanges at most one message |
| Barrier.LogRounds | src/bootstrap.cc:1626-1632 | round k sends the k-th power of two on and receives from as far back, and there are as many rounds as the logarithm of the number of ranks rounded up |
| Barrier.EnterKeeps | src/bootstrap.cc:1607-1634 | entering a barrier keeps the invariant on channels and on what each rank knows |
| Barrier.SendKeeps | src/bootstrap.cc:1627-1630 | sending the message of a round keeps the invariant |
| Barrier.ReceiveKeeps | src/bootstrap.cc:1627-1632 | receiving the message of a round keeps the invariant: knowledge of who has entered doubles |
| Barrier.NobodyLeavesEarly | src/bootstrap.cc:1607-1634 | in every run of repeated barriers on one tag, no rank leaves its e-th barrier before every rank has entered its own e-th |
| Barrier.OneMessagePerBarrier | src/bootstrap.cc:1607-1634 | in every run an ordered pair exchanges at most one message per barrier, and a channel in use never holds more than two |
| Barrier.NeverStuck | src/bootstrap.cc:1607-1634 | in every run, as long as some rank has not left its e-th barrier, some rank can go on without entering a later one |
| Barrier.Completes | src/bootstrap.cc:1607-1634 | every run in which nobody has entered more than e barriers can be continued until all ranks have left their e-th |
| RingAllGather.PlansComplete | src/bootstrap.cc:1492-1536 | both loops move n - 1 slices to every rank, the bidirectional one in floor(n / 2) steps for odd and even n |
| RingAllGather.SendsHeld | src/bootstrap.cc:1540-1564 | a rank sends only slices that it holds |
| RingAllGather.RunInv | src/bootstrap.cc:1492-1571 | in every interleaving over FIFO links, link contents, held slices and received slices are as the step counters say |
| RingAllGather.FinishedHoldsAll | src/bootstrap.cc:1492-1571 | a rank that has left the loop holds every slice with the right contents and has received each foreign slice exactly once |
| RingAllGather.NeverTwice | src/bootstrap.cc:1492-1571 | at no time has a rank received a slice twice, or its own |
| RingAllGather.NothingLeft | src/bootstrap.cc:1492-1571 | when all ranks are done every message sent has been received |
| RingAllGather.NeverStuck | src/bootstrap.cc:1492-1571 | in every run, until all ranks are done some rank can take a step |
| RingAllGather.Completes | src/bootstrap.cc:1492-1571 | every run can be continued until all ranks are done |
| AsyncSend.StepKeeps | src/bootstrap.cc:1256-1362 | every atomic step of callers, send threads and drain keeps the queue invariant |
| AsyncSend.DeliveredInCallOrder | src/bootstrap.cc:1268-1362 | in every run and under any send failures, what is delivered for a peer and tag is a prefix of what was sent, in call order, and only the last can be incomplete |
| AsyncSend.DrainedClean | src/bootstrap.cc:1268-1303 | a drain that reports success means that every accepted call was delivered, whole and in order |
| AsyncSend.FirstErrorKept | src/bootstrap.cc:1256-1262 | the recorded error is the first one reported, and it is never replaced |
| AsyncSend.DrainIsFinal | src/bootstrap.cc:1298-1303 | drain returns only with an empty queue and no send in progress, with the recorded error; nothing is queued or delivered afterwards |
| AsyncSend.HeadMoves | src/bootstrap.cc:1268-1296 | the operation at the head of the queue can always go on, with fewer steps left for it, and has to fail only if its connection broke off |
| AsyncSend.DrainEnds | src/bootstrap.cc:1298-1303 | every run in which the state is closing can be continued until drain returns, and returns success if there was no error and no connection in use had broken off |
| Receive.Receiver.UnexpectedEnqueue | src/bootstrap.cc:1365-1382 | the walk to the end of the linked list and the new link put the connection last; the list stays linked and without repetition |
| Receive.Receiver.FindMatch | src/bootstrap.cc:1383-1404 | the walk finds the first matching node and the one before it, or none |
| Receive.Receiver.UnexpectedDequeue | src/bootstrap.cc:1383-1406 | unlinks the first match, with a negative peer matching anyone, or leaves the list alone if there is none; the list stays linked |
| Receive.Receiver.Accept | src/bootstrap.cc:1421-1446 | takes the first matching connection in accept order, whether already queued or new; everything else stays pending in order, and if nothing matches all connections are kept |
| Receive.Receiver.Connect | src/bootstrap.cc:1208-1221 | a new connection is pending behind all others, and for every peer and tag received then pending is still what arrived |
| Receive.BalancedTake | src/bootstrap.cc:1421-1446 | a receive, also a wildcard one, takes the oldest pending message of its peer and tag: for every peer and tag, received then pending is what arrived |
| Receive.NthReceive | src/bootstrap.cc:1421-1446 | the n-th message received from a peer on a tag is the n-th that arrived |
| Receive.SentIsReceived | src/bootstrap.cc:1256-1448 | end to end: what a rank has received from another on a tag is a prefix of what the other sent to it on that tag |
| ProxyOps.StepKeeps | src/proxy.cc:490-577 | every step of clients and progress thread keeps the ownership partition and every client's order |
| ProxyOps.ExactlyOneChain | src/proxy.cc:490-577 | in every interleaving each index is in exactly one chain, once |
| ProxyOps.DeliveredInOrder | src/proxy.cc:862-943 | in every interleaving what a client appended is what `ProxyAppend` received from it followed by what is on its way, in append order |
| ProxyOps.WaitingClient | src/proxy.cc:520-533 | a client that finds no free operation and is not full has an operation posted, in progress or being returned |
| ProxyOps.ProgressMoves | src/proxy.cc:862-943 | while such an operation exists the progress thread has a step that brings it nearer to its client, or returns operations to the client |
| ProxyOps.ComesBack | src/proxy.cc:862-943 | every run can be continued by the progress thread alone until operations have come back to the client of a given operation on its way |
| ProxyOps.WaitEnds | src/proxy.cc:520-533 | so a client that waits for a free operation can be served without any step of a client |
| ProxyPool.Pool.constructor | src/proxy.cc:1569-1577 | the pool as set up: each segment one free chain |
| ProxyPool.Pool.TryExchange | src/proxy.cc:520-533 | the exchange takes over the whole returned chain, or finds that nothing has been returned |
| ProxyPool.Pool.Append | src/proxy.cc:515-547 | the operation taken from the free list is filled in and linked behind the pending chain |
| ProxyPool.Pool.FindCut | src/proxy.cc:552-562 | the scan finds the last pending operation with another count than the last one |
| ProxyPool.Pool.PostFull | src/proxy.cc:548-574 | a full client posts all but its last run of operations with one count; it fails exactly when all have one count |
| ProxyPool.Pool.PostUpTo | src/proxy.cc:490-503 | a prefix of the pending chain is cut off and linked behind the posted chain |
| ProxyPool.Pool.Start | src/proxy.cc:1057-1072 | everything pending is posted |
| ProxyPool.Pool.GrabPosted | src/proxy.cc:867-891 | the progress thread takes the whole posted chain, or finds it empty |
| ProxyPool.Pool.ProcessOne | src/proxy.cc:905-927 | the next operation is handed to `ProxyAppend` and put on its client's return chain |
| ProxyPool.Pool.ReturnLoad | src/proxy.cc:929-939 | the return chain is pointed at the value read from the client's free list |
| ProxyPool.Pool.ReturnCas | src/proxy.cc:934-943 | the compare-exchange puts the return chain in front of the client's free list, and fails only if that has changed since it was read |
| ProxyArgs.OneHome | src/proxy.cc:216-240 | every element is in the free pool or in one chain, never both and never twice |
| ProxyArgs.Progress.constructor | src/proxy.cc:216-222 | an empty work list |
| ProxyArgs.Progress.GrowBlock | src/proxy.cc:218-236 | a new block of elements becomes the pool |
| ProxyArgs.Progress.AllocateArgs | src/proxy.cc:216-240 | takes an element out of the pool, which grows by a block when it is empty; everything else stays in place |
| ProxyArgs.Progress.AddSub | src/proxy.cc:377-446 | an operation joins the last element of its append pointer; it fails exactly when that is full, of another kind or already running; nothing else changes |
| ProxyArgs.Progress.AppendFirst | src/proxy.cc:469-485 | an operation with nothing before it becomes the last entry of the active list |
| ProxyArgs.Progress.AppendBehind | src/proxy.cc:460-468 | an operation that must wait becomes the last of its chain |
| ProxyArgs.Progress.ProxyAppend | src/proxy.cc:449-487 | a shared operation of the same count joins the last element, with the exact failure condition; any other gets a new last element of its own; per append pointer the order of operations is kept, and the pointer is null iff nothing waits for it and else names the last |
| ProxyArgs.Progress.RemoveOp | src/proxy.cc:790-821 | the element is returned to the pool, its successor takes its place in the active list, or the entry disappears and the append pointer becomes null |
| ProxyArgs.Progress.ProgressOps | src/proxy.cc:824-857 | one pass terminates and runs exactly the elements that head their chains when it starts, in order; finished or failed ones give way to the next of their chain, which does not run in this pass; the elements that ran have the status their progress function returned, and nothing else about any element changes |
| Space.SegmentParity | src/allocator.cc:146-151 | segments between cuts alternate between full and empty, the one above the last cut being empty |
| Space.CutsUnique | src/allocator.cc:146-151 | a set of integers has exactly one representation by increasing positive cuts |
| Space.CutSpace.DropEmptySegments | src/allocator.cc:186-205 | the filtering loop removes pairs of equal cuts in place and keeps the set of integers |
| Space.CutSpace.InsertSegment | src/allocator.cc:161-206 | membership is flipped on exactly the given interval and the cuts stay strictly increasing |
| Space.CutSpace.FindHole | src/allocator.cc:208-222 | finds the first segment with room for the least aligned offset, or none |
| Space.CutSpace.TryAlloc | src/allocator.cc:208-231 | returns the least feasible aligned offset and marks its interval full; fails only when no offset is feasible, and then changes nothing |
| Space.CutSpace.FindFull | src/allocator.cc:247-249 | the walk stops in bounds at the first full segment that ends beyond the offset |
| Space.CutSpace.Empty | src/allocator.cc:251-268 | moving either end of a full segment and cutting it twice all flip exactly the given interval |
| Space.CutSpace.Free | src/allocator.cc:241-269 | removes exactly the given interval if all of it was full, else reports an error and changes nothing |
| Space.AllocatedUnique | src/allocator.cc:208-231 | offset and new cuts of an allocation are determined by the old cuts |
| Space.ReleasedUnique | src/allocator.cc:241-269 | the new cuts of a release are determined by the old cuts |
| Space.AllocExactIff | src/allocator.cc:216-230 | an allocation marks exactly its interval iff it starts its segment, that starts at zero, or it ends it; otherwise alignment padding is marked too |
| Space.AlignedAllocIsExact | src/allocator.cc:208-231 | with aligned cuts and sizes an allocation adds exactly its interval |
| Space.AllocKeepsAligned | src/allocator.cc:208-231 | allocation keeps cuts aligned |
| Space.FreeKeepsAligned | src/allocator.cc:241-269 | release keeps cuts aligned |
| Space.FreeUndoesAlloc | src/allocator.cc:208-269 | freeing an allocation restores the cuts iff no padding was marked |
| Space.PaddingLeaks | src/allocator.cc:216-230 | a concrete allocation with padding that happens, and a release of it that leaves the padding marked |
| ShadowTable.Find | src/allocator.cc:441-450 | a chain search finds the object of an address iff the map has it |
| ShadowTable.Double | src/allocator.cc:371-388 | the doubled table holds the same map |
| ShadowPages.PageSlots | src/allocator.cc:392-402 | every page has 2 to 64 slots, they fit into it, and rounding wastes at most an eighth |
| ShadowPages.FourBits | src/allocator.cc:393-394 | the slot size is the least multiple of a power of two that holds the object, where the size is 8 to 16 times that power, or less if it is 1 |
| ShadowPages.ThreeTimes | src/allocator.cc:392 | objects share pages exactly if three of them fit into 64 KiB |
| ShadowPages.SlotBounds | src/allocator.cc:399-402 | a page has 64 slots, or as many as fit into 64 KiB |
| ShadowPages.NoOverlap | src/allocator.cc:410-413 | live objects never overlap, within a page or outside |
| ShadowPages.SlotOf | src/allocator.cc:458 | the slot computed from an address is the slot of the object, and it is taken |
| ShadowPages.TakeSlot | src/allocator.cc:410-413 | taking a free slot adds one object at an unused address and keeps pages, masks and objects consistent |
| ShadowPages.DropSlot | src/allocator.cc:453-459 | freeing an object frees exactly its slot |
| ShadowPages.ListUnlink | src/allocator.cc:413 | unlinking a full page keeps the list exact and acyclic |
| ShadowPool.Pool.Reserve | src/allocator.cc:345-389 | before an insertion there is a table with room for it at two objects per bucket, holding the same map: 16 buckets at first, twice as many exactly when there would be no room |
| ShadowPool.Pool.FindPage | src/allocator.cc:395-417 | finds the first listed page for the size and its predecessor, or none exactly if no listed page has that size |
| ShadowPool.Pool.NewPage | src/allocator.cc:398-409 | a new page goes to the front of the list and has more than one free slot |
| ShadowPool.Pool.PopSlot | src/allocator.cc:410-415 | takes the lowest free slot, and the page leaves the list if it was its last; the unlinking never happens through the stale predecessor of a new page |
| ShadowPool.Pool.Alloc | src/allocator.cc:341-436 | adds exactly one object at a nonnull address not in use, or returns null for size zero. It is the lowest free slot of the first listed page for its size; if none is listed, the start of exactly one new page; and a memory of its own if three such objects do not fit into a page. A page is listed iff it has a free slot |
| ShadowPool.Pool.ToHost | src/allocator.cc:469-487 | returns the shadow of a live object, null for null, and an error for any other address once there has been an allocation; before the first one a nonnull address is excluded, since the code reads through a null table |
| ShadowPool.Pool.Free | src/allocator.cc:438-467 | removes exactly the object and frees its slot, which puts a full page in front of the list, or reports an error for an unknown address; before the first allocation a nonnull address is excluded, since the code reads through a null table |
| ShadowPool.Pool.Sweep | src/allocator.cc:297-318 | lists every page and frees each object allocated on its own once |
| ShadowPool.Pool.Destruct | src/allocator.cc:295-333 | frees every page and every object allocated on its own exactly once |
| CeSync.FlagStands | src/ce_coll.cc:214-299 | with alternating arrays a flag that is out and still waited for shows the awaited value |
| CeSync.WaitSound | src/ce_coll.cc:244-254 | a satisfied wait means that the peer has written the flag of this very sync |
| CeSync.StepKeeps | src/ce_coll.cc:214-366 | every write, wait, reset and completion keeps the flag invariant |
| CeSync.NobodyFinishesEarly | src/ce_coll.cc:214-366 | in every run no rank finishes a sync before every peer has started it and written its flag |
| CeSync.NeverStuck | src/ce_coll.cc:214-366 | as long as no flag is lost and until all ranks are done some rank can take a step |
| CeSync.TogetherKept | src/ce_coll.cc:214-366 | if no rank starts a sync that another has not reached, no flag is lost, whichever arrays the syncs use |
| CeSync.Completes | src/ce_coll.cc:214-366 | a run extends to one in which all ranks have executed all syncs if arrays alternate, and also if the ranks have stayed together so far |
| CeSync.BarrierIff | src/ce_coll.cc:214-366 | for two or more ranks and any choice of arrays the sync is a barrier in every run iff no sync waits for a value that its flag array holds from its last use |
| CeSync.MixedIff | src/ce_coll.cc:228-231 | with the host's numbering this fails exactly when a captured sync is the next on its array after the sync with sequence number 1 |
| CeSync.TwoBefore | src/ce_coll.cc:355-356 | with alternating arrays the last use of an array was two syncs before |
| CeSync.FirstThenGraph | src/ce_coll.cc:228-231 | a first collective outside a graph followed by a captured one is not synchronized |
| CeSync.LosesFlag | src/ce_coll.cc:214-366 | with two successive syncs on one array there is a run in which a flag still waited for is overwritten by that of the second, or the second's is reset with that of the first |
| CeSync.FlagsKeptIff | src/ce_coll.cc:214-366 | for two or more ranks and syncs that are barriers, no run loses a flag that is still waited for iff successive syncs use different arrays |
| CeLaunch.InOrderIsSynchronized | src/ce_coll.cc:228-231 | syncs executed as issued are barriers iff it is not so that the first was issued outside a graph and the third captured, and then lose no flag |
| CeLaunch.Issuer.constructor | src/ce_coll.cc:124-125 | the initial counter and array |
| CeLaunch.Issuer.MemOpSync | src/ce_coll.cc:312-356 | one sync consumes a sequence number and toggles the array |
| CeLaunch.Issuer.CopyLoop | src/ce_coll.cc:515-523 | the number of syncs among the copies, all in the mode of the launch |
| CeLaunch.Issuer.CapturedBatch | src/ce_coll.cc:504-530 | a captured batch issues an even number of syncs, twice the half of the number of sync groups |
| CeLaunch.Issuer.CapturedCollective | src/ce_coll.cc:651-699 | a captured collective issues an exactly counted, even number of captured syncs and leaves the array selection as it was |
| CeLaunch.Issuer.FallbackCollective | src/ce_coll.cc:615-626 | without batched copies a collective outside a graph issues one sync fewer than sync groups among its copies, and leaves the array selection as it was iff that makes the total even |
| CeLaunch.ReplaysAlternate | src/ce_coll.cc:524-529 | launches of even length that start on one array alternate arrays in whatever order they are replayed |
| CeLaunch.AlternatesIff | src/ce_coll.cc:355-356 | the syncs of launches alternate arrays exactly when every launch that has any starts on the array that is next after all before it |
| CeLaunch.LaunchesKeepFlagsIff | src/ce_coll.cc:355-356 | executing launches one after the other, as barriers, loses no flag in any run iff every launch that has any syncs starts on the array that is next |
| CeLaunch.OddThenReplay | src/ce_coll.cc:615-626 | a graph captured before an odd number of syncs were issued outside a graph does not alternate with them when it is replayed |
| CeLaunch.ReplayLosesFlag | src/ce_coll.cc:615-626 | and then some run loses a flag that is still waited for |
| CeLaunch.EvenNeeded | src/ce_coll.cc:524-529 | repeating a launch keeps the alternation iff its length is even |
| HierRing.SourceHolds | src/ce_coll.cc:1891-1917 | each round forwards only what the node holds: its own slice, then what arrived in the round before |
| HierRing.SameOrigin | src/ce_coll.cc:1892-1899 | sender and receiver of a chunk agree on its origin |
| HierRing.SignalsAwaited | src/ce_coll.cc:1872-1889 | on every lane a round awaits as many signals as it raises, also when both neighbours are one node |
| HierRing.MergeWaits | src/ce_coll.cc:1206-1246 | merging keeps the number of signals awaited from every peer and the first of the two in front, drops empty waits, leaves one wait per peer, and fails exactly for more than two waits |
| HierRing.RoundWaits | src/ce_coll.cc:1872-1889 | the merged waits of a round take from every node exactly the signals that node's puts of one round raise on the context |
| HierRing.EvenLoad | src/ce_coll.cc:1762-1800 | every context carries its share of the chunks of a half, the first ones one more |
| HierRing.StepKeeps | src/ce_coll.cc:1935-2030 | every issue, put, wait, fanout and retirement on a rail keeps the invariant on rounds and signals |
| HierRing.PiecesDiffer | src/ce_coll.cc:1598-1656 | a put that a node has issued and a put into it that is still to come carry different pieces |
| HierRing.NeverTwice | src/ce_coll.cc:1598-1656 | no chunk is put into a node twice |
| HierRing.AllArrived | src/ce_coll.cc:1938-2030 | after the last round and its fanout a node has received and fanned out every piece of the rail that is not its own |
| HierRing.NeverStuck | src/ce_coll.cc:1938-2030 | in every state that satisfies the invariant, until all nodes of a rail are done some rank can act or some put can take effect |
| HierGather.SameSlot | src/ce_coll.cc:1892-1917 | the byte offset to which a chunk is sent is the offset at which the receiver fans it out and from which it forwards it in the next round |
| HierGather.SliceIs | src/ce_coll.cc:1900-1917 | the receive buffer holds the slices in the order of the ranks |
| HierGather.Halves | src/ce_coll.cc:1697-1698 | clockwise chunks carry the first half of a slice, rounded down, and the others the rest; a single byte goes clockwise |
| HierGather.SlotInside | src/ce_coll.cc:1900-1917 | the bytes of every chunk lie inside the slice of its rank and inside the receive buffer |
| HierGather.SlotsApart | src/ce_coll.cc:1900-1917 | chunks of different ranks or pieces share no byte |
| HierGather.SlotOf | src/ce_coll.cc:1900-1917 | every byte of the receive buffer is in a chunk of some rank, so the chunks of all ranks tile it |
| HierGather.StepKeeps | src/ce_coll.cc:1824-2030 | every broadcast, put, fanout and other step of any rank keeps the invariant: bytes that a rank has been given are the right ones |
| HierGather.EveryRankHoldsAll | src/ce_coll.cc:1676-2030 | in every run of all rails together, once the ranks of a node are through, each of them holds every byte of the slice of every rank, in place or not |
| HierGather.NoClash | src/ce_coll.cc:1598-1656 | in every run a byte of the receive buffer that an issued put reads is not written by any put, fanout or broadcast still to come |
| HierGather.FanNoClash | src/ce_coll.cc:1974-2022 | the same for a byte that is being fanned out |
| HierGather.NeverStuck | src/ce_coll.cc:1676-2030 | in every run, until all ranks are through some step is possible |
| HierGather.Starts | src/ce_coll.cc:1676-1760 | every job has a run |
| HierGather.Completes | src/ce_coll.cc:1676-2030 | every run can be continued until all ranks are through |
| ChunkPlan.WidthAligned | src/ce_coll.cc:1030-1039 | widths are multiples of 8 KiB between 8 KiB and 64 MiB |
| ChunkPlan.RingWidthAligned | src/ce_coll.cc:1041-1054 | so are the widths of the ring |
| ChunkPlan.ChunksPerCtxLeast | src/ce_coll.cc:1033-1034 | the chunks per context are as few as the cap of 64 MiB allows |
| ChunkPlan.WidthLeast | src/ce_coll.cc:1030-1039 | the width is the cap for one context, and for several the least multiple of 8 KiB with which that many chunks on every context hold the slice |
| ChunkPlan.RingWidthLeast | src/ce_coll.cc:1041-1054 | the width of the ring is that width, except that for large slices on four or more contexts a smaller multiple of 8 KiB is taken, the least of 8 MiB or more with which one chunk on every context holds the larger half |
| ChunkPlan.ChunkCount | src/ce_coll.cc:1030-1039 | with several contexts there are at most contexts times chunks-per-context chunks |
| ChunkPlan.PositiveIff | src/ce_coll.cc:951-961 | all chunks are positive iff the width is not finer than the alignment allows |
| ChunkPlan.NarrowWidthFails | src/ce_coll.cc:951-961 | a width below the alignment that makes the last chunk negative |
| ChunkPlan.LastBound | src/ce_coll.cc:951-961 | the last of n chunks is below the width plus n - 1 alignment units iff the slice is not exactly one width |
| ChunkPlan.ChunkInside | src/ce_coll.cc:951-977 | every chunk is a nonempty part of its slice |
| ChunkPlan.ChunksApart | src/ce_coll.cc:951-977 | chunks of a slice do not overlap |
| ChunkPlan.ChunkOf | src/ce_coll.cc:951-977 | every byte of a slice is in one of its chunks |
| ChunkPlan.UniformLargest | src/ce_coll.cc:956-958 | the uniform size is the largest multiple of 8 KiB not above the share of a chunk, or 8 KiB if there is none |
| ChunkPlan.BuildChunk | src/ce_coll.cc:940-980 | every peer's slice is tiled exactly by contiguous chunks, as few as the width allows, all positive if the last one is. All start at a multiple of 8 KiB, and all but the last have the largest such multiple not above their share, or 8 KiB if there is none |
| HierAlltoAll.PeerIndex | src/ce_coll.cc:2221-2247 | in either direction a rank of another node is the peer at exactly one index |
| HierAlltoAll.PeerElsewhere | src/ce_coll.cc:2221-2247 | no rank of the own node is a peer |
| HierAlltoAll.CountOps | src/ce_coll.cc:2202-2207 | the number of puts per context is the number of peers times the chunks on that context |
| HierAlltoAll.BuildPuts | src/ce_coll.cc:2221-2247 | pass 2 builds, per context, the puts of all remote peers in order |
| HierAlltoAll.BuildWaits | src/ce_coll.cc:2302-2321 | phase 5 builds the wait list of a context |
| HierAlltoAll.Prepare | src/ce_coll.cc:2196-2330 | from the plan to puts and waits: the room counted for the puts of a context is exactly used |
| HierAlltoAll.RaisedIsAwaited | src/ce_coll.cc:2221-2321 | for any two ranks and every context, the signals that the puts of the first raise at the second are the signals that the second awaits from the first |
| HierAlltoAll.WaitsAt | src/ce_coll.cc:2302-2321 | a wait list names every remote peer with the number of chunks on the context, or nobody if that is zero |
| HierAlltoAll.WaitsDistinct | src/ce_coll.cc:2302-2321 | no peer is awaited twice or without signals |
| HierAlltoAll.EveryByteOnce | src/ce_coll.cc:2221-2247 | every byte of the block from one rank to a rank of another node is carried to its place by exactly one put, on exactly one context, that of its chunk modulo the number of contexts |
| HierAlltoAll.EvenLoad | src/ce_coll.cc:2202-2207 | every context carries its share of the chunks of a block, the first ones one more |
| HierAlltoAll.PeerOrder | src/ce_coll.cc:2221-2225 | peers come by the distance of their node from the own one, upwards for puts and downwards for waits, and by local rank within a node |
| HierAlltoAll.PutsOrdered | src/ce_coll.cc:2221-2247 | the puts of a context come in the order of their peers, and of the chunks for one peer |
| BatchChunks.ChunkedLaunch | src/ce_coll.cc:436-478 | the batches together cover each copy from start to end without gap or overlap. Batch w holds, in the order of the copies, the chunk at w times the chunk size of exactly the copies that are longer, each of the chunk size or what is left; there are as many batches as the longest copy has chunks |
| BatchChunks.RotatedLaunch | src/ce_coll.cc:546-601 | so does the single batch. Its chunks are at most the threshold divided by the number of copies, and round r holds those at r times the chunk size of exactly the copies that are longer, beginning with copy r modulo their number and going round |
| BatchChunks.EachByteOnce | src/ce_coll.cc:436-478 | hence each byte of each copy is carried by exactly one chunk, to its own place, and no byte beyond it is carried |
| P2pSchedule.TriInjective | src/init.cc:1167-1192 | triangular numbers modulo a power of two do not repeat within one period |
| P2pSchedule.DeltasPermute | src/init.cc:1167-1192 | filtered, they are a permutation of the groups |
| P2pSchedule.FlatPermutes | src/init.cc:1753-1771 | the nodes' rank tables list every rank once |
| P2pSchedule.SizeDivides | src/init.cc:1114-1120 | the group size divides the number of ranks of every node |
| P2pSchedule.SizeGreatest | src/init.cc:1114-1120 | it is the greatest that does: what divides it is exactly what divides the number of ranks of every node and, with several nodes, the configured size |
| P2pSchedule.QuadraticOrder | src/init.cc:1167-1192 | group distances come in the order of the triangular numbers modulo the least power of two not below the number of groups, without those that are too large |
| P2pSchedule.PositionOrder | src/init.cc:1138-1164 | ranks are placed in groups by node, and by rank within a node |
| P2pSchedule.SchedulePeers | src/init.cc:1171-1192 | in each round a rank sends to the rank as many places on in the group at that distance as the round is into its group, and receives from the one as far back |
| P2pSchedule.ScheduleMatched | src/init.cc:1171-1192 | for any two ranks, one sends to the other in a round iff the other receives from it in that round |
| P2pSchedule.SchedulePermutes | src/init.cc:1171-1198 | every rank's schedule has as many rounds as there are ranks, and its send and receive peers are permutations |
| P2pPlanner.FillNodeTables | src/init.cc:1753-1771 | the counting loops fill in the node tables and local ranks |
| P2pPlanner.PickGroupSize | src/init.cc:1114-1120 | the loop over nodes computes the group size, whose divisors are the common divisors of the start and all nodes |
| P2pPlanner.NumberGroups | src/init.cc:1138-1164 | the groups are numbered node by node without gap |
| P2pPlanner.EmitRounds | src/init.cc:1171-1192 | the quadratic walk emits the rounds of the schedule |
| P2pPlanner.PlanP2p | src/init.cc:1109-1198 | the in-place algorithm never takes an error exit, fills in exactly the schedule and uses the greatest group size that fits |
| Arith.ComputeGcd | src/include/utils.h:102-110 | the loop computes the greatest common divisor |
| Arith.GcdDivisors | src/include/utils.h:102-110 | the divisors of the result are the common divisors of the arguments |
| LsaSize.AlignedIff | src/dev_runtime.cc:127-153 | a block size keeps every aligned block within one node iff it divides every node boundary |
| LsaSize.ComputeLsaSize | src/dev_runtime.cc:127-153 | outside the cross-clique case the result divides the number of ranks, every aligned block of that size lies in one node, and without a parameter it is the largest such size |
| LsaSize.TeamOfRank | src/dev_runtime.cc:168-183 | the listed team of a rank exists, is the same for its members and lies in one node |
| SymRegister.Unanimous | src/dev_runtime.cc:755-785 | all ranks take the same decision: fail, reuse or create |
| SymRegister.StepKeeps | src/dev_runtime.cc:729-816 | a registration or deregistration on all ranks keeps agreement and disjointness |
| SymRegister.RanksAgree | src/dev_runtime.cc:729-957 | in every run all ranks have the same id counter, registrations and reference counts, and ranks of one team the same offsets and spaces |
| SymRegister.SameChoice | src/dev_runtime.cc:755-785 | in every run all ranks reuse or all create, and their counters advance alike |
| SymRegister.LiveDisjoint | src/dev_runtime.cc:806-957 | in every run live registrations occupy disjoint ranges, all marked full |
| SymRegister.NothingLeaks | src/dev_runtime.cc:806-957 | in every run with sizes that are multiples of the granularity, a space is full at exactly the live registrations, and empty when nothing is live |
| SymRegistry.Registry.constructor | src/dev_runtime.cc:203 | an empty registry |
| SymRegistry.Registry.FindCandidate | src/dev_runtime.cc:729-742 | finds the most recent registration of the same memory, or none exactly if there is none |
| SymRegistry.Registry.Decide | src/dev_runtime.cc:755-775 | the loop over the gathered infos fails exactly if a mask or mode differs, and reuses only a candidate that all ranks name |
| SymRegistry.Registry.TeamMax | src/dev_runtime.cc:804-811 | no rank of the own team has a larger size, and some rank of it has this one |
| SymRegistry.Registry.Obtain | src/dev_runtime.cc:697-893 | the rank's list, counter and space change as the decision says; it fails exactly on a mismatch, with nothing changed, or when no offset is feasible, with only the counter moved |
| SymRegistry.Registry.DropRef | src/dev_runtime.cc:932-965 | the last reference frees exactly the registration's range and removes it from the list |
| MemManager.Manager.constructor | src/mem_manager.cc:32-60 | an empty manager |
| MemManager.Manager.Track | src/mem_manager.cc:130-215 | persistent memory is only counted; other memory becomes the first entry; every counter equals the sum over its entries; a mapping that no entry uses keeps driver and entries in agreement |
| MemManager.Manager.Untrack | src/mem_manager.cc:231-330 | the first entry for the address goes, with its share of counters and backup use; an unknown address changes nothing |
| MemManager.Manager.MarkExport | src/mem_manager.cc:355-408 | succeeds iff the first entry for the address is an own buffer not yet marked for the peer; adds the peer then, else changes nothing |
| MemManager.Manager.Take | src/mem_manager.cc:450-526 | unmapping an address and releasing an own allocation keeps driver and entries in agreement |
| MemManager.Manager.BackUp | src/mem_manager.cc:480-504 | what is read at the address of an own buffer goes to the host and is counted |
| MemManager.Manager.Suspend | src/mem_manager.cc:418-540 | every entry is released and what it is stays; own allocations are gone from the device, and an own offload buffer has on the host what was at its address; fails exactly if already suspended |
| MemManager.Manager.Give | src/mem_manager.cc:587-630 | an own buffer gets a new allocation with arbitrary contents at its old address |
| MemManager.Manager.Restore | src/mem_manager.cc:632-646 | the saved contents are written to the address and the backup goes |
| MemManager.Manager.ResumeLocal | src/mem_manager.cc:576-668 | own buffers have memory at their address again, with the contents that were saved; imports are left alone |
| MemManager.Manager.BuildInfos | src/mem_manager.cc:688-770 | the two passes describe exactly the own active buffers that have peers |
| MemManager.AssembleInfos | src/mem_manager.cc:723-810 | counts and offsets put the contributions of all ranks together without gap or overlap |
| MemManager.Manager.Reimport | src/mem_manager.cc:822-913 | each released import is mapped, to its owner's allocation, through the first matching info if its handle works here |
| MemManager.SuspendAndResume | src/mem_manager.cc:418-930 | all ranks suspend, resume, exchange and map again; every manager is then in order and not suspended |
| MemManager.OwnBack | src/mem_manager.cc:418-668 | after that every own buffer is what it was and active, mapped at its address, and an offload buffer reads as it did before |
| MemManager.CountersBack | src/mem_manager.cc:418-913 | after that every counter is what it was and no host memory stays in use |
| MemManager.ImportFound | src/mem_manager.cc:822-842 | an import finds a handle in the exchanged table iff its owner lists the buffer as exported, and it is that buffer's handle |
| MemManager.ImportBack | src/mem_manager.cc:418-905 | after that an import that was active is active iff its owner lists the buffer with a handle that works here; it is mapped to the owner's new allocation, and if it was mapped to that offload buffer before it reads what it read before |

## Left out

- Socket, TLS, shared-memory, network-plugin and CUDA calls: only FIFO channels, counters and the addresses they return are kept.
- Memory ordering: steps are atomic at the lock, exchange and compare-exchange points.
- Fixed-width overflow: sizes, counters and sequence numbers do not wrap around.
- Failure paths in the middle of registration, suspend and resume: steps succeed, or fail before they change anything.
- MemManager.Manager.Suspend: no two entries share an address, as the driver hands out addresses that are not in use.
- SymRegister.StepKeeps: all ranks pass an operation together; the waiting inside the gather of infos is not a step of its own.
- RootMatch.BootstrapRoot: stops waiting when the list of arrivals ends, where the thread would block.
- Receive.SentIsReceived: the last connection of a peer and tag may break off in mid-payload, which its receive reports; it counts as its message.
- Receive.Receiver.Accept: returns without a message where the source would block for the next connection.
- AsyncSend.DrainEnds: says that drain can always come to its end, not that the network lets every send end.
- ProxyOps.WaitEnds: says that the progress thread can always serve a waiting client, not that it is scheduled.
- ProxyPool.Pool.ProcessOne: the batch limit of the progress loop is not a step; the loop may stop after any operation.
- ProxyArgs.Progress.AddSub: the fields of an operation that subs must share are one value.
- HierGather.EveryRankHoldsAll: the barriers at entry and exit are not steps; a fanout or broadcast is one step; a wait is for the sum of the signals of all rounds so far.
- HierGather.NoClash: the multicast form of broadcast and fanout is not modelled; it also writes the sender's own slot, with the bytes that are there.
- CeLaunch.Issuer.CopyLoop: the copies themselves are not modelled, only the syncs between them.
- ChunkPlan.BuildChunk: a negative last chunk stays negative, where the code's unsigned size would wrap around.
- P2pPlanner.PlanP2p: the group-size parameter is positive; the code divides by it.
- Rail synchronization and the direct hierarchical allgather: they would repeat the counting argument of the alltoall.
- Segments, multicast, GIN, RMA and logical endpoints of a registration: opaque driver state.
- Group launch, collectives entry points, topology search, tuning, logging, profiling: no coordination state of their own, or foreign state.
