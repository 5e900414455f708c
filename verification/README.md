# Global Cache adaptor: verified models

The Global Cache adaptor connects the Ceph 14.2.8 client and OSD code to a cache engine. This
project models the parts of it that are protocols, transformations or loops with a promise
over all inputs or all runs, and proves those promises with Dafny 4.11:

    dafny verify dfyconfig.toml

| module | part of the system |
|---|---|
| `Throttle`, `ThrottleDeadlock`, `ThrottleProgress` | the compare-and-swap admission counters of the server adaptor, as interleaved atomic accesses of any number of threads |
| `ThrottleChain`, `ThrottleChainDeadlock` | the chain of throttles a worker passes, keeping the earlier ones while it waits in a later one |
| `ServerQueue`, `ServerQueueBounds` | hashed, bounded, three-way parallel dispatch queues, their workers and the copyup flag |
| `Objecter`, `ObjecterEffects` | client operations between sessions, hang-on list, PT retry queues and running handlers |
| `CrushHash`, `Straw2` | the batched Jenkins hash and the batched straw2 choice against their scalar forms |
| `OsdMapSync` | keeping the OSD map from full and incremental maps |
| `Semaphore`, `ProxyWorker` | the proxy's semaphore, linked queue and one worker per pool |
| `Copyup`, `Memory` | merging writes into a copyup |
| `BufferChain`, `GatherScatter`, `ScatterExact` | gathering and scattering over chains of buffer lists |
| `OmapCodec` | hand-written omap replies against the stock decoders; measuring an encoded map |
| `Rollback` | snapshot rollback through the cache and its compensation |
| `ClassLoader` | recursive loading of object classes |
| `Lanes`, `Sequences`, `Counting` | what hashing onto first-in first-out lanes keeps per object; facts about sequences and counting |

Protocols are state machines: a run is any sequence of enabled steps, one step being what the
code does in one atomic access or under one lock. Objects updated in place are classes whose
methods are proved equal to a function on values, about which the lemmas speak.

## What turned out to be exact or false

- The counters hold exactly the cost in flight *if and only if* no operation was rejected:
  the reject in ProcessOpReq ends in FinishCacheOps, which decrements the operation counter
  although GetlwtCas has not incremented it yet
  (`Throttle.CounterIsHeldCostIffNothingRejected`).
- Without rejections the throttles that count operations let one more through than their
  configured limit, and this is attained; after r rejections the lwt counter lets
  limit + 1 + r through, which is attained for every r. "The operation let through last" is
  the one whose read of the counter was the last to be at most the limit; swaps and reads of
  several threads may be ordered otherwise.
- Without rejections, all workers can hang for ever in a throttle if and only if the costs of
  one operation per worker can exceed its limit: for the counters of operations, if and only
  if workers outnumber the limit; in a bandwidth throttle a single worker hangs on a single
  operation dearer than the limit that has to wait.
- A worker inside Get is let through by its own reads as soon as it finds the counter within the
  limit. With all workers inside Get nobody can be let through any more if and only if nobody has
  been and no value the counter can still take, by what is in flight finishing and the workers
  inside being counted, is within the limit. At rest this is exactly the deadlock; before that a
  state can already be lost while operations are still in flight
  (`ThrottleProgress.LostBeforeDeadlocked`).
- A worker passes several throttles and keeps the earlier ones while it waits in a later one.
  This adds no deadlock: without rejections the workers can all hang somewhere in the chain if
  and only if they could all hang in one of its throttles alone.
- With r rejections all workers can hang in GetlwtCas if and only if workers - r, modulo
  2^64, exceeds the limit; for workers within the limit, if and only if r exceeds their
  number (up to counts near 2^64).
- A queue holds at most capacity + producers operations without spurious wakeups, and the
  bound is attained; an operation in a lane always leaves the worker or the engine a step to make;
  with spurious wakeups there is no bound, since the wait in EnqueueClientop has no predicate.
- Told to stop, a proxy worker always ends its loop by its own accesses; everything queued is
  handled unless the worker is just about to test the flag, and then what is queued stays
  unhandled (`Semaphore.StopIsNeverMissed`), although the function that stops it is called
  WaitForEmpty.
- Client operations are conserved by every event except a reset that finds the cache node's
  id up in the OSD map, which loses the session's operations.
- Retry order per PT is safe, however a run goes on, if and only if every notification that
  found operations queued came when no handler still carried operations of that PT.
- A message settles the client (up to date and continuously subscribed, or waiting for
  exactly the next epoch) if and only if its oldest epoch is not past its last one, or it
  brings nothing new, or the client had no map, or the message lacks none of the epochs the
  client misses. Otherwise the client stops at the first epoch the message lacks, behind, and
  subscribes continuously all the same.
- The scatter loop leaves a node after 64 slots, the gather loop after the node's own count:
  they visit the used entries in the same order if and only if all nodes before another node in
  use are full (of an empty node the gather loop takes the first slot all the same), and the bytes go where they should if and only if the result passes no unused slot
  that takes bytes. Clearing goes by entry lengths, copying may go by pages: the remainder
  after a short read is certain to be zero if and only if the lengths cover the pages not
  filled.
- Omap values come back if and only if no key and no value is empty, because
  EncodeOmapGetvals skips empty items but still counts them; key lists always come back.
- The copyup test adds in 32 bits: it lets a copy run past the buffer exactly when the first
  write past the data has a sum that wraps to at most the length (`Copyup.Overruns`,
  `Copyup.TestIsExactBelowU32`). The log text of the copyup branch for an
  existing object says that it does not exist; the code is followed.
- A failed rollback leaves no temporary snapshot if and only if as many were removed as had
  been created; losing the plugin between the two creations leaves the first one.
- A class that is already registered, for instance as a dependency, is opened without
  looking at the load list.

## Model

| member | source | states |
|---|---|---|
| `Throttle.CounterIsHeldCostIffNothingRejected` | src/server_adaptor/network_module.cpp:889-1136 | in every reachable state of any interleaving a counter equals the summed cost of the operations between their Get swap and their Put swap if and only if nothing was rejected before Get |
| `Throttle.GuardedPutNeverGivesUp` | src/server_adaptor/network_module.cpp:921-1098 | no guarded Put ever takes its early return or subtracts below zero, whatever happens between its test, its read and its swap |
| `Throttle.InFlightCostIsBounded` | src/server_adaptor/network_module.cpp:1030-1063 | in every run, rejections included, the cost past Get and not yet Put never exceeds the limit plus the cost of the operation let through last plus one for every rejection, although waiters are already counted |
| `Throttle.OpsInFlightAtMostLimitPlusOne` | src/server_adaptor/network_module.cpp:889-1028 | for the counters of operations the bound is limit + 1 (write, read, iops), and limit + 1 + r after r rejections on the lwt counter |
| `Throttle.StatesAreExact` | src/server_adaptor/network_module.cpp:889-1098 | if the limit, the costs of one operation per worker and one more, and the rejections so far fit 64 bits, less than 2^64 is held, no Put ever gives up, and without rejections the counter is the cost held |
| `Throttle.BalancedStep` | src/server_adaptor/network_module.cpp:889-919 | every atomic access keeps counter = held cost minus rejections, modulo 2^64 |
| `ThrottleDeadlock.DeadlockReachableIffCostsExceedLimit` | src/server_adaptor/network_module.cpp:889-1098 | for every throttle, a state with every worker stuck in Get and nothing in flight is reachable without rejections if and only if the costs of one operation per worker can exceed the limit |
| `ThrottleDeadlock.DeadlockReachableIffWorkersExceedLimit` | src/server_adaptor/network_module.cpp:889-1028 | for the counters of operations: if and only if workers outnumber the limit (saOpThrottle for GetlwtCas) |
| `ThrottleDeadlock.DeadlockReachableIffCountExceedsLimit` | src/server_adaptor/network_module.cpp:604-612 | in GetlwtCas, with exactly r rejections, for every r: if and only if workers - r modulo 2^64 exceeds the limit |
| `ThrottleDeadlock.RejectionsHangWorkersIff` | src/server_adaptor/network_module.cpp:604-612 | the same without the modulus: with workers within the limit, if and only if r exceeds their number and the wrapped counter still lies above the limit |
| `ThrottleDeadlock.NoDeadlockWhenWorkersFit` | src/server_adaptor/network_module.cpp:889-905 | with workers at most the limit, no reachable state with at most as many rejections as workers is deadlocked |
| `ThrottleDeadlock.DeadlockIsPermanent` | src/server_adaptor/network_module.cpp:889-905 | from a deadlocked state every step leads to a deadlocked state |
| `ThrottleDeadlock.LimitPlusOneIsReached` | src/server_adaptor/network_module.cpp:889-905 | the bound of limit + 1 operations in flight is attained |
| `ThrottleDeadlock.RejectionsRaiseTheBound` | src/server_adaptor/network_module.cpp:604-612 | after r rejections limit + 1 + r in flight is attained, for every r |
| `ThrottleDeadlock.RejectionsCanHangEveryWorker` | src/server_adaptor/network_module.cpp:604-612 | every number of rejections above the number of workers (with the wrapped counter above the limit) makes a state reachable in which all workers hang |
| `ThrottleProgress.GetReachesItsSwap` | src/server_adaptor/network_module.cpp:889-905 | however often its swap failed, a Get reaches it by at most three accesses of its own: it is counted with its cost and has seen the counter as it is |
| `ThrottleProgress.WaiterPasses` | src/server_adaptor/network_module.cpp:904 | a waiter that finds the counter within the limit passes by at most two accesses of its own, and nothing else changes |
| `ThrottleProgress.WaiterLooksAgain` | src/server_adaptor/network_module.cpp:904 | a waiter over the limit reads the counter again at every access and remembers what it read |
| `ThrottleProgress.PutReachesItsSwap` | src/server_adaptor/network_module.cpp:921-1098 | an operation in flight gives its cost back by at most five accesses of its own, unless a guarded Put finds less than the cost |
| `ThrottleProgress.GuardedPutReturnsEarly` | src/server_adaptor/network_module.cpp:921-1098 | in that case it returns without touching the counter |
| `ThrottleProgress.RejectReachesItsSwap` | src/server_adaptor/network_module.cpp:604-612 | a rejected operation reaches its decrement by its own accesses |
| `ThrottleProgress.LostStep` | src/server_adaptor/network_module.cpp:889-905 | a lost state stays lost at every step and lets no one through |
| `ThrottleProgress.LetsThroughIffNotLost` | src/server_adaptor/network_module.cpp:889-919 | from every reachable state with all workers inside Get, some continuation lets an operation through if and only if one has been let through or the counter can still come within the limit |
| `ThrottleProgress.DeadlockedIffLostAtRest` | src/server_adaptor/network_module.cpp:889-905 | the deadlocked states are exactly the lost ones with nothing in flight and every worker counted |
| `ThrottleProgress.StuckAtRestIffDeadlocked` | src/server_adaptor/network_module.cpp:889-905 | at rest with all workers inside Get, no continuation lets anyone through if and only if the state is deadlocked |
| `ThrottleProgress.LostBeforeDeadlocked` | src/server_adaptor/network_module.cpp:889-905 | whenever a throttle can hang its workers, a state is reachable that is lost but not yet deadlocked, with operations in flight that do not help |
| `ThrottleChain.InvStep` | src/server_adaptor/network_module.cpp:501-510 | every access keeps: throttles are passed in order and given back in reverse, no more operations are between Gets than there are workers, and every throttle's view is a reachable state of the single throttle |
| `ThrottleChain.ViewIsExact` | src/server_adaptor/network_module.cpp:501-510 | in every throttle of the chain the counter is the cost held and no Put has given up |
| `ThrottleChain.ChainAdmission` | src/server_adaptor/network_module.cpp:501-510 | in every throttle of the chain at most the limit and one cost more is past its Get, in flight or waiting further on |
| `ThrottleChain.DeadlockIsPermanent` | src/server_adaptor/network_module.cpp:501-510 | from a deadlock of the chain every event leads to a deadlock of the chain |
| `ThrottleChain.DeadlockCosts` | src/server_adaptor/network_module.cpp:501-510 | a deadlock of the chain needs a throttle on some route whose limit the costs of one operation per worker exceed |
| `ThrottleChainDeadlock.Hang` | src/server_adaptor/network_module.cpp:1124-1136 | from any such throttle a run, over single accesses and with Puts in the source's reverse order, into a deadlock of the chain |
| `ThrottleChainDeadlock.ChainDeadlocksIffSomeThrottleDoes` | src/server_adaptor/network_module.cpp:501-510 | over all routes and interleavings without rejections, all workers can hang for ever in the chain if and only if there is such a throttle |
| `ThrottleChainDeadlock.ChainDeadlocksIffThrottleAlone` | src/server_adaptor/network_module.cpp:501-510 | the same in terms of the single throttles: if and only if one of them, alone and with the same workers, can hang them all |
| `ServerQueue.ClientOpQueue.EnQueue` | src/server_adaptor/client_op_queue.h:24-30 | appends the operation and its two timestamps as one entry |
| `ServerQueue.ClientOpQueue.Swap` | src/server_adaptor/network_module.cpp:464-468 | the batch is everything queued, the queue is what the batch variables held |
| `ServerQueue.TakeFirst` | src/server_adaptor/network_module.cpp:493-499 | the three pops for one operation take its own timestamps and leave the other entries paired |
| `ServerQueue.DrainBatch` | src/server_adaptor/network_module.cpp:486-522 | through every allocation failure and refusal each entry of a batch is processed once, in order, with its own timestamps, and exactly the accepted ones are passed on, in order |
| `ServerQueue.InvStep` | src/server_adaptor/network_module.cpp:462-522 | every step of producers, worker and engine keeps order, pairing, the copyup gate and the size bound |
| `ServerQueue.ObjectsAreServedInArrivalOrder` | src/server_adaptor/network_module.cpp:664-717 | in every interleaving the operations taken for an object are a prefix of its arrivals, with their own timestamps, by one lane only, and dispatches are a prefix of the accepted ones |
| `ServerQueue.NoOtherLaneTakesThem` | src/server_adaptor/network_module.cpp:674 | an entry is taken only by the lane its object hashes to, and only if it arrived |
| `ServerQueue.NothingPassesAnUnfinishedCopyup` | src/server_adaptor/network_module.cpp:511-519 | between a dispatched copyup and the next dispatch of its queue the copyup has finished; the flag is up exactly while the last entry of the log is a dispatched copyup |
| `ServerQueue.QueueIsBounded` | src/server_adaptor/network_module.cpp:699-705 | without spurious wakeups a queue never holds more than capacity + producers operations |
| `ServerQueue.WaitingProducerIsServed` | src/server_adaptor/network_module.cpp:699-705 | in every run, while a lane holds an operation the worker or the engine has a step to make; with the backlog worked off that step is the swap, which wakes every waiting producer; producers wait only over capacity |
| `ServerQueue.BacklogShrinks` | src/server_adaptor/network_module.cpp:462-522 | every step of the worker or the engine but the swap lowers the backlog, and no other event raises it |
| `ServerQueueBounds.BoundIsReached` | src/server_adaptor/network_module.cpp:699-705 | that bound is attained for every configuration |
| `ServerQueueBounds.SpuriousWakeupsBreakEveryBound` | src/server_adaptor/network_module.cpp:699-705 | with spurious wakeups every size above the capacity is reachable |
| `Objecter.ConservedStep` | patch/ceph-global-cache.patch:5752-5890 | one event keeps every unfinished operation in exactly one place if and only if it is not a reset that finds the cache node's id up |
| `Objecter.OperationsAreConserved` | patch/ceph-global-cache.patch:5389-5440 | in every run without such a reset every unfinished operation is in exactly one container at one position, and tids stay unique |
| `Objecter.LosingResetLoses` | patch/ceph-global-cache.patch:5980-6026 | such a reset leaves an unfinished operation in no container |
| `Objecter.ByTidKeepsAll` | patch/ceph-global-cache.patch:5752-5815 | collecting operations in a map keyed by tid loses and repeats none |
| `Objecter.RetriesKeepArrivalOrder` | patch/ceph-global-cache.patch:5817-5890 | operations waiting on one PT are resubmitted in arrival order while no queue with operations is taken as another handler still carries operations of that PT |
| `Objecter.TakeOutOfTurnReorders` | patch/ceph-global-cache.patch:5817-5890 | from every state still in order such a take can be followed by a resubmission out of order |
| `Objecter.EventLosesOrderIffOutOfTurn` | patch/ceph-global-cache.patch:5817-5890 | after one event order can still be lost if and only if the event was such a take |
| `Objecter.OrderIsSafeIffTakesInTurn` | patch/ceph-global-cache.patch:5817-5890 | every run is safe against reordering on a PT, at every point and however it goes on, if and only if it contains no such take |
| `Objecter.OverlappingNotificationsReorder` | patch/ceph-global-cache.patch:5817-5890 | an instance: a complete run that resubmits two operations in the opposite order |
| `ObjecterEffects.NodeViewClosesExactly` | patch/ceph-global-cache.patch:5752-5790 | over the digits of the id: a node view change empties the session of id k * 2^20 + cluster * 2^16 + node * 16 + low exactly if k is not 0, the id is not -1, the cluster is the one named and the node is not available; all other sessions keep their operations |
| `ObjecterEffects.NodeViewCarries` | patch/ceph-global-cache.patch:5752-5815 | the handler carries, in tid order and once each, exactly what left a session and the homeless operations of the cache; everything else stays |
| `ObjecterEffects.ResetCarries` | patch/ceph-global-cache.patch:5980-6026 | a reset empties the session and carries its operations in tid order, or nothing if the id is up; every other container is unchanged |
| `ObjecterEffects.HandlersAreNeverBlocked` | patch/ceph-global-cache.patch:5752-5815 | in every reachable state a node view change with any arguments can be handled |
| `ObjecterEffects.ResetIsHandledIffCacheNode` | patch/ceph-global-cache.patch:5291-5297 | a reset is handled by that code if and only if the id has a part above 20 bits and is not -1 |
| `ObjecterEffects.PlaceMovesAndNumbers` | patch/ceph-global-cache.patch:5388-5457 | a submitted operation goes behind what is there; in a session it keeps its tid or gets the next one, elsewhere no tid changes |
| `ObjecterEffects.RepliesMoveOnlyTheirOwn` | patch/ceph-global-cache.patch:5930-5950 | a reply to be retried moves its own operation to the handler and clears its tid, a retarget moves it between sessions; no other operation moves |
| `ObjecterEffects.CompletesOnlyItsOwn` | patch/ceph-global-cache.patch:5905-5950 | any other reply ends its own operation and changes nothing else |
| `ObjecterEffects.HangTakeSplits` | patch/ceph-global-cache.patch:5862-5878 | the hang-on operations whose PT is ready go to the handler, the others stay, both in their order |
| `CrushHash.RoundX3` | patch/ceph-global-cache.patch:1805-1833 | the three interleaved lanes of a third of the mix are three one-lane thirds |
| `CrushHash.MixX3` | patch/ceph-global-cache.patch:1805-1833 | each lane of crush_hashmix_x3 is the one-lane mix, whose shifts `MixIsInvertible` fixes |
| `CrushHash.Hash3X3` | patch/ceph-global-cache.patch:1864-1895 | each of the three results is the one-lane hash of that lane's arguments |
| `CrushHash.RoundSimdX2` | patch/ceph-global-cache.patch:1835-1855 | each lane of two interleaved vector triples goes through the one-lane third of the mix |
| `CrushHash.MixSimdX2` | patch/ceph-global-cache.patch:1835-1855 | each lane of crush_hashmix_simdx2 is the one-lane mix |
| `CrushHash.Hash3SimdX2` | patch/ceph-global-cache.patch:1896-1950 | each of the eight results is the one-lane hash of that lane's arguments |
| `CrushHash.LanesHash` | patch/ceph-global-cache.patch:1926-1945 | five lane-wise mixes chained as in the hash give the hash in every lane although exclusive-or is grouped differently |
| `CrushHash.NeonXorAssociates` | patch/ceph-global-cache.patch:1926-1945 | the 32-bit exclusive-or of the vector unit associates |
| `CrushHash.MixIsInvertible` | patch/ceph-global-cache.patch:1805-1833 | for every word type whose sum undoes the difference and whose exclusive-or undoes itself, the nine updates taken back one by one, with the shifts 15, 10, 3, 5, 16, 12, 13, 8, 13, are the inverse of the mix on both sides |
| `CrushHash.NeonMixIsPermutation` | patch/ceph-global-cache.patch:1805-1833 | on 32-bit words the mix is a permutation of the triples with that inverse |
| `CrushHash.KnownHashes` | patch/ceph-global-cache.patch:1857-1895 | the hashes of (0, 0, 0) and (1, 2, 3) on 32-bit words with the seed and the two constants of the source |
| `Straw2.DrawSimdX2` | patch/ceph-global-cache.patch:2032-2043 | eight draws, each the table entry of its own lane's hash divided by its own weight |
| `Straw2.DrawX3` | patch/ceph-global-cache.patch:2017-2030 | the same for the first three lanes |
| `Straw2.CopyTail` | patch/ceph-global-cache.patch:2057-2103 | the lanes of the last batch that belong to items hold those items' ids and weights |
| `Straw2.DrawTail` | patch/ceph-global-cache.patch:2057-2103 | the draws of the remaining items are right whatever the unused lanes hold |
| `Straw2.Update` | patch/ceph-global-cache.patch:2045-2055 | keeps the smallest index of the greatest draw seen, a weight of zero drawing S64_MIN |
| `Straw2.UpdateLanes` | patch/ceph-global-cache.patch:2057-2103 | folding a batch of lanes keeps the smallest index of the greatest draw |
| `Straw2.Choose` | patch/ceph-global-cache.patch:2057-2103 | for every bucket size of at least one and all 32-bit weights the batched choice is the item at the smallest index with the greatest draw |
| `Straw2.ChooseScalar` | patch/ceph-global-cache.patch:2045-2055 | the reference form, STRAW2_DRAW_UPDATE over the items one by one without lanes, meets the same specification |
| `Straw2.FirstMaxIsUnique` | patch/ceph-global-cache.patch:2057-2103 | that specification determines the choice |
| `Straw2.ChoiceIgnoresJunk` | patch/ceph-global-cache.patch:2057-2103 | uninitialised lanes and the quotient by zero never change the choice |
| `Straw2.DrawGrowsWithWeight` | patch/ceph-global-cache.patch:2032-2043 | with table entries in [-2^48, 0] a draw grows with its weight over all 32-bit weights, across the sign change at 2^31 where the lane reads them as negative, and is above S64_MIN for a positive weight |
| `Straw2.RaisingOneWeightMovesOnlyToIt` | patch/ceph-global-cache.patch:2032-2103 | raising one item's weight, to any 32-bit value, leaves the choice or moves it to that item |
| `Straw2.ZeroWeightChosenOnlyWhenAllZero` | patch/ceph-global-cache.patch:2045-2103 | an item of weight zero is chosen if and only if all weights are zero, and then it is the first |
| `Straw2.InitLnTable` | patch/ceph-global-cache.patch:1993-2007 | entry i of the table is crush_ln(i) - 2^48, in [-2^48, 0] |
| `Straw2.MachineIsValid` | patch/ceph-global-cache.patch:1988-2043 | any table in range and any garbage in the lanes satisfies what the choice assumes |
| `Straw2.NeonFits` | patch/ceph-global-cache.patch:1988-2043 | the source's word operations and 16-bit mask satisfy what the choice assumes |
| `Straw2.Low16IsLowerHalf` | patch/ceph-global-cache.patch:2022-2039 | the table slot is the lower half of the hash |
| `OsdMapSync.ProxyMsgr.HandleOsdMap` | src/ceph_proxy/CephMsgr.cc:637-666 | the new map, flag and subscription are those of the step function `Handle` |
| `OsdMapSync.ProxyMsgr.UpdateOSDMap` | src/ceph_proxy/CephMsgr.cc:597-621 | the loop with its reassigned index terminates and computes the recursive `UpdateFrom`; an incremental is applied only to the epoch just before it |
| `OsdMapSync.ProxyMsgr.InitOsdMap` | src/ceph_proxy/CephMsgr.cc:623-635 | takes the last full map, or asks again from 0 |
| `OsdMapSync.ProxyMsgr.RenewOSDMap` | src/ceph_proxy/CephMsgr.cc:668-679 | one-time unless a continuous subscription is wanted or the cluster is paused |
| `OsdMapSync.HeldMapIsAuthoritative` | src/ceph_proxy/CephMsgr.cc:597-666 | after any sequence of messages drawn from one history the held map is the history's map of its epoch, and the epoch never decreases |
| `OsdMapSync.HandleAgrees` | src/ceph_proxy/CephMsgr.cc:637-666 | one message keeps that agreement |
| `OsdMapSync.HandleReachesLastIffMessageSuffices` | src/ceph_proxy/CephMsgr.cc:597-621 | the epoch reaches the message's last one, continuously subscribed, if the message holds what is needed; otherwise it ends at an epoch whose successor the message lacks, the latest request asks for epoch + 1 and continuous is off |
| `OsdMapSync.UpdateContiguous` | src/ceph_proxy/CephMsgr.cc:597-621 | the same if and only if, for the loop |
| `OsdMapSync.HandleEndsSettled` | src/ceph_proxy/CephMsgr.cc:623-666 | at any epoch a message with oldest at most last leaves the client up to date and continuous, or waiting for exactly the next epoch (0 if it has no map) |
| `OsdMapSync.HandleSettlesIff` | src/ceph_proxy/CephMsgr.cc:597-666 | a message does so if and only if oldest is at most last, or it brings nothing new, or the client had no map, or it lacks none of the epochs the client misses |
| `OsdMapSync.UpdatePastLast` | src/ceph_proxy/CephMsgr.cc:597-621 | with oldest past last the loop ends exactly at the first epoch the message lacks, subscribed continuously |
| `OsdMapSync.OldestPastLastSkipsEverything` | src/ceph_proxy/CephMsgr.cc:608-620 | with oldest past last and the client's next epoch missing, nothing is taken and the subscription is continuous |
| `OsdMapSync.OldestPastLastCanStopHalfway` | src/ceph_proxy/CephMsgr.cc:608-620 | an instance: epoch 5, last 8, oldest 9 and only epoch 6 in the message ends at epoch 6, behind and continuous |
| `OsdMapSync.HandleAsks` | src/ceph_proxy/CephMsgr.cc:597-679 | what every message makes the client ask for: nothing if it stays continuous, its next epoch (0 without a map) continuously if it becomes so, its next epoch once unless reads or writes are paused if it is behind; a message of another cluster changes nothing |
| `OsdMapSync.InsufficientMessageAsksOnce` | src/ceph_proxy/CephMsgr.cc:671-675 | a message that does not bring the client up to its last epoch leaves a request for the next epoch, one-time exactly if the map then held pauses neither reads nor writes |
| `OsdMapSync.OneTimeExactlyWhileBehind` | src/ceph_proxy/CephMsgr.cc:668-679 | in every reachable state the latest request is one-time if and only if continuous is not wanted and nothing is paused, and while continuous is not wanted it is for the next epoch |
| `OsdMapSync.IncrementalReads` | src/ceph_proxy/CephMsgr.cc:600-602 | an incremental sets epoch and flags, removes, updates and keeps entries |
| `Semaphore.AccessesKeepBalance` | src/ceph_proxy/utils.h:76-129 | every atomic access of PostOne and Wait keeps the balance between the two counters and the threads inside |
| `Semaphore.InvStep` | src/ceph_proxy/RadosWorker.cc:50-59 | every step of producers and worker keeps the invariant that ties queue, credits and the worker's place |
| `Semaphore.NoLostWakeup` | src/ceph_proxy/utils.h:76-129 | completed waits never exceed posts, and a worker asleep on an inner count of 0 while no producer is inside Queue has an empty queue |
| `Semaphore.QueuedRequestKeepsWorkerAwake` | src/ceph_proxy/RadosWorker.cc:54-59 | with a request queued and no producer inside Queue the worker has a step to take unless it has stopped |
| `Semaphore.HandledInEnqueueOrder` | src/ceph_proxy/RadosWorker.cc:54-59 | requests are handled in enqueue order, each at most once |
| `Semaphore.QueuedRequestsAreHandled` | src/ceph_proxy/RadosWorker.cc:54-59 | in every run, with no producer or poster under way, the worker's own accesses handle everything queued, unless it has stopped or stops at its next test of the flag |
| `Semaphore.StopsOnlyWhenTold` | src/ceph_proxy/RadosWorker.cc:54-59 | the flag is set if and only if WaitForEmpty set it, and a stopped worker was told to stop |
| `Semaphore.StopIsNeverMissed` | src/ceph_proxy/RadosWorker.h:298-303 | once the stop and every post under way have arrived the worker's own accesses end its loop; everything queued is handled unless the worker is just about to test the flag |
| `ProxyWorker.ConcurrentQueue.Enqueue` | src/ceph_proxy/utils.h:24-35 | the linked list behind the dummy head holds one value more at its end |
| `ProxyWorker.ConcurrentQueue.Dequeue` | src/ceph_proxy/utils.h:37-56 | false exactly when empty; otherwise the first value, and the list holds the others |
| `ProxyWorker.AtMostOneWorkerPerPool` | src/ceph_proxy/RadosWorker.h:341-391 | however callers race, at most one worker is ever created per pool |
| `ProxyWorker.ObjectsAreHandledInOrder` | src/ceph_proxy/RadosWorker.cc:36-82 | the requests of one (pool, object) handled are a prefix of those enqueued, in order |
| `ProxyWorker.NoOtherLaneHandlesThem` | src/ceph_proxy/RadosWorker.cc:36-52 | no other worker or queue ever handles a request of that (pool, object) |
| `ProxyWorker.ValidCallIsQueued` | src/ceph_proxy/RadosWorker.h:368-391 | a call for a pool that is not negative is queued by its own steps, once, at the worker of its pool and the queue its object hashes to, and no other queue changes |
| `ProxyWorker.OnlyValidPoolsAreQueued` | src/ceph_proxy/RadosWorker.h:374-377 | nothing is ever queued for a negative pool; such a call fails and changes nothing |
| `Copyup.MergePreservesMeaning` | src/server_adaptor/osa.cpp:447-477 | one write of the merged data leaves any object as the copyup write followed by each later non-empty WRITE in order |
| `Copyup.OneMoreWrite` | src/server_adaptor/osa.cpp:457-464 | over the fields: a sub-operation that is no WRITE or has no data changes nothing; a WRITE changes exactly the bytes it covers |
| `Copyup.LastWriteWins` | src/server_adaptor/osa.cpp:455-466 | every byte of the merged data is that of the last WRITE that covers it, or of the copyup data if none does |
| `Copyup.MergeLoop` | src/server_adaptor/osa.cpp:455-466 | the buffer ends as the data with the writes applied in order, or the first write that fails the test is named, or (only with a 32-bit wrap) the first copy past the buffer |
| `Copyup.TestIsExactBelowU32` | src/server_adaptor/osa.cpp:458 | below 2^32 the test is exactly "runs past the data", and it fails to be exactly when the sum wraps to at most the length |
| `Copyup.CopyupOp.MergeCopyup` | src/server_adaptor/osa.cpp:447-477 | on all inputs: the copy leaves the buffer exactly when `Overruns` says so; otherwise no write and -EINVAL exactly when some later non-empty WRITE runs past the data (with all sums below 2^32, stated over offset and length), and else one write of the merged data |
| `Copyup.OverrunNeedsWrap` | src/server_adaptor/osa.cpp:458 | with all sums below 2^32 the copy never leaves the buffer |
| `Copyup.CopyupOp.ExecCopyup` | src/server_adaptor/osa.cpp:544-562 | every path clears the copyup flag; no write for an existing object; otherwise the result and the write of MergeCopyup |
| `GatherScatter.Gather` | src/ceph_proxy/RadosWrapper.cc:603-645 | the data appended is the padding before, the first len bytes of the chain as the loop visits it (of an empty node it takes the first slot), and the padding behind |
| `GatherScatter.AppendEntries` | src/ceph_proxy/RadosWrapper.cc:624-638 | the loop reads exactly `Collected`: entry after entry, whenever it does not run off the chain or a buffer |
| `GatherScatter.GathersUsedBytes` | src/ceph_proxy/RadosWrapper.cc:624-638 | without empty nodes, or if their first slots take no bytes, it reads the first bytes of the used entries |
| `BufferChain.OrdersAgreeIffFull` | src/ceph_proxy/RadosWrapper.cc:1042-1069 | scatter visits the used entries in their order if and only if every node before another node in use is full |
| `ScatterExact.ScattersRightIffPassable` | src/ceph_proxy/RadosWrapper.cc:1042-1069 | for all contents and all results of n bytes the scatter loop fills exactly the used entries in gather order if and only if the result passes no unused slot that takes bytes |
| `GatherScatter.PassableThreads` | src/ceph_proxy/RadosWrapper.cc:1042-1069 | then the used entries are the slots visited without some that take no bytes |
| `GatherScatter.FullIsPassable` | src/ceph_proxy/RadosWrapper.cc:1042-1069 | such chains let every result through |
| `GatherScatter.ReadTarget.ZeroFill` | src/ceph_proxy/RadosWrapper.cc:1029-1040 | the valid data of every used entry is zero, and no buffer changes its size |
| `GatherScatter.ReadTarget.ScatterLoop` | src/ceph_proxy/RadosWrapper.cc:1042-1069 | memory becomes `Scattered`: the result over all slots in order, whenever it does not run off the chain or a buffer |
| `GatherScatter.ThreadScatters` | src/ceph_proxy/RadosWrapper.cc:1048-1069 | filling slots of which some take no bytes is filling the entries in between |
| `BufferChain.LaidIsOverlay` | src/ceph_proxy/RadosWrapper.cc:1048-1069 | over distinct buffers this replaces exactly the first bytes of the flattened chain |
| `BufferChain.LaidFrame` | src/ceph_proxy/RadosWrapper.cc:1048-1069 | buffers no slot points to keep their bytes |
| `GatherScatter.ReadTarget.ReadCallback` | src/ceph_proxy/RadosWrapper.cc:1022-1069 | for every chain the result can pass: the flattened chain starts with the result; the rest is as before for a read of the length asked for, and no stale valid data remains otherwise |
| `GatherScatter.ShortReadLeavesZeros` | src/ceph_proxy/RadosWrapper.cc:1029-1069 | after clearing and scattering every byte of valid data past the result is zero |
| `ScatterExact.ShortReadZeroesRemainderIffLengthsCover` | src/ceph_proxy/RadosWrapper.cc:1029-1069 | the whole remainder is zero for all earlier contents if and only if entry lengths cover the pages not filled |
| `GatherScatter.RoundTrip` | src/ceph_proxy/RadosWrapper.cc:603-645 | gathering a full or passable chain of whose empty nodes nothing is read, and scattering the bytes back, restores every entry, whatever the buffers held in between |
| `OmapCodec.EncodeGetkeys` | src/server_adaptor/network_module.cpp:1162-1180 | count, every key, false |
| `OmapCodec.EncodeGetvals` | src/server_adaptor/network_module.cpp:1182-1207 | count, every non-empty key and value, false |
| `OmapCodec.MapGetKeys` | src/server_adaptor/class_api.cc:513-521 | the decoding loop returns the set, its size and more, or -EIO exactly when the bytes do not decode |
| `OmapCodec.DecodeMap` | src/server_adaptor/class_api.cc:553-560 | the map decoder's loop computes the recursive reading of pairs, later values replacing earlier ones |
| `OmapCodec.MapGetVals` | src/server_adaptor/class_api.cc:553-561 | the map, its size and more, or -EIO exactly when the bytes do not decode |
| `OmapCodec.KeysRoundTrip` | src/server_adaptor/network_module.cpp:1172-1179 | every list of keys decodes to exactly its set, more = false, nothing left |
| `OmapCodec.CountIffDistinct` | src/server_adaptor/class_api.cc:521 | the number returned is the number sent if and only if no key was sent twice |
| `OmapCodec.KeysReplyOf` | src/server_adaptor/class_api.cc:513-521 | keys and one byte from any sender decode to the set of the keys and to whether the byte is not zero; what follows is left |
| `OmapCodec.KeysReplyInverse` | src/server_adaptor/class_api.cc:513-521 | whatever decodes is such keys, such a byte and what is left |
| `OmapCodec.ValsRoundTripIffNoneEmpty` | src/server_adaptor/network_module.cpp:1194-1206 | for distinct keys the reply decodes to exactly the map if and only if no key and no value is empty; then more = false and nothing is left |
| `OmapCodec.ValsReplyOf` | src/server_adaptor/class_api.cc:553-561 | the same for keys with values |
| `OmapCodec.U32IsLittleEndian` | src/server_adaptor/network_module.cpp:1162-1180 | the byte order of counts and lengths on the wire |
| `OmapCodec.PairsRoundTrip` | src/server_adaptor/class_api.cc:553-556 | decoding encoded pairs followed by anything gives the pairs and what follows |
| `OmapCodec.PairsInverse` | src/server_adaptor/msg_module.cpp:22-38 | whatever decodes as pairs is the encoding of those pairs followed by the rest |
| `OmapCodec.SkipMap` | src/server_adaptor/msg_module.cpp:22-38 | on every byte string: fails exactly when the map decoder does; otherwise copies the leading encoded map, all and nothing else, stands right behind it, and the copy decodes to the same map |
| `OmapCodec.SkipPairs` | src/server_adaptor/msg_module.cpp:28-36 | the skipping loop ends where the pair decoder ends and fails exactly when it does |
| `Rollback.InvStep` | patch/ceph-global-cache.patch:4581-4744 | every callback keeps the invariant that ties names, snapshots and errors, and strictly fewer callbacks remain |
| `Rollback.CompletesOnceWithFirstError` | patch/ceph-global-cache.patch:4615-4683 | every run ends within six callbacks; it completes at most once, exactly when it fails, with the first error among the answers |
| `Rollback.RollbackOnlyWhenBothExist` | patch/ceph-global-cache.patch:4697-4744 | the rollback call is made only while both temporary snapshots exist, so its assertion never fires |
| `Rollback.RefreshesIffRolledBack` | patch/ceph-global-cache.patch:4697-4744 | a request goes on to refresh the object map if and only if the cache has answered that it rolled back |
| `Rollback.CompensatedIffNotRefusedNorUnplugged` | patch/ceph-global-cache.patch:4636-4683 | a failed run leaves exactly the image's own snapshots if and only if as many were removed as created; it does if no removal failed and the plugin was there for the second snapshot, and only then if a failing removal removes nothing |
| `Rollback.SnapshotsAreCounted` | patch/ceph-global-cache.patch:4581-4744 | in every run the snapshots are the image's own plus those created minus those removed |
| `Rollback.MissingPluginLeavesFirstSnapshot` | patch/ceph-global-cache.patch:4590-4594 | the plugin going away after the first snapshot completes with -ELIBACC and leaves that snapshot |
| `Rollback.FirstErrorIsFirstFailure` | patch/ceph-global-cache.patch:4809-4813 | the error kept is the first failing answer, read off the answers alone |
| `ClassLoader.ClassHandler.OpenClass` | src/server_adaptor/ClassHandler.cc:49-62 | -EPERM and no change exactly for an unregistered name not on the list; otherwise 0 if and only if the class and all it needs is loaded or loadable; no class is ever un-opened; a failure returns the error of a class without library that is needed |
| `ClassLoader.ClassHandler.LoadClass` | src/server_adaptor/ClassHandler.cc:145-211 | terminates over an acyclic dependency relation; opens the class if and only if it can be opened; touches only lower-ranked classes |
| `ClassLoader.ClassHandler.ReadDependencies` | src/server_adaptor/ClassHandler.cc:171-185 | registers exactly the declared dependencies and lists as missing exactly those not open |
| `ClassLoader.ClassHandler.ResolveDependencies` | src/server_adaptor/ClassHandler.cc:187-200 | in any order, either no dependency stays missing, or the class is marked and cannot be opened |
| `ClassLoader.TransitiveDependenciesAreOpen` | src/server_adaptor/ClassHandler.cc:145-211 | in a consistent registry every class an open class reaches is open and misses nothing |
| `ClassLoader.CanOpenIffNothingMissing` | src/server_adaptor/ClassHandler.cc:145-211 | a class can be opened if and only if nothing it reaches lacks a library |
| `ClassLoader.OpenCanOpen` | src/server_adaptor/ClassHandler.cc:145-211 | whatever is open could be opened: openness agrees with the loading-independent definition |
| `Lanes.ObjectOrder` | src/ceph_proxy/RadosWorker.cc:36-52 | if a lane is first-in first-out, the handled operations of each of its objects are a prefix of that object's arrivals |
| `Memory.CopyInto` | src/server_adaptor/osa.cpp:464 | a memcpy into a buffer replaces exactly the bytes from the offset on |

## Left out

- Messenger set-up, TLS, authentication, thread affinity, configuration, logging, perf counters and tracing.
- librados, librbd, the cache engine and the CCM agents: environment steps whose answers are arbitrary.
- LimitWriteBw and LimitWriteIops: they depend on wall-clock time.
- ThrottleChain: rejected operations, the wait for the copyup flag between the last Get and the engine, and throttles that are off.
- Throttles that switch between zero and non-zero during a run, and isGc changing while an iops throttle is in use.
- Draining the queues at stop; operations whose pool id overflows in ProcessOpReq, which are dropped without an answer.
- Objecter: target calculation, linger operations and the fall-back path when the adaptor plugin is absent; an op's box is the only thing an event decides about it.
- CRUSH hash types other than RJENKINS1, bucket types other than straw2, the choose_args selection of ids and weights, and crush_ln itself beyond its range.
- OSD map epochs are unbounded: the wrap of a 32-bit epoch at 2^32 - 1 is not modelled.
- The inside of an OSD map: an incremental is any update of a finite map and the two pause flags.
- GatherScatter.Gather: the 32-bit truncation of the length, and chains that end before the length asked for.
- GatherScatter.ReadTarget.ReadCallback: buffers are a table and entries point into it by index, used entries have distinct buffers large enough for the result; errors and the plain-buffer branch are not modelled.
- Copyup.CopyupOp.MergeCopyup: what the program does after a copy has left the buffer.
- Straw2.ChooseScalar: the scalar loop kept for other processors is not part of the patch; this is the reference form the batched one is compared with.
- OmapCodec.EncodeGetvals: outdata empty before the call; a null buffer counts as empty; a length not below 2^32 does not occur.
- OmapCodec: the key order in which ConvertOmapOp lists a decoded map, and the other omap requests.
- Rollback: the object-map steps before the first temporary snapshot and after a successful rollback; names generated are fresh and non-empty; nobody else removes the temporary snapshots.
- ClassLoader: embedded classes, register_class, methods and filters, shutdown, and the splitting of the load list at blanks; cls_init is taken to leave the registry alone; cyclic dependencies, on which loading does not return.
- Semaphore: the atomic `int` counter is unbounded, and the memory orders are taken as sequential consistency.
- ProxyWorker: an allocation failure in RadosIOWorker::Queue, which enqueues nothing, and what follows a dequeue (submission to librados or the error callback, one call of either).
- RadosMonitor, the cls functions that only build one request, tests and mocks of the patch, the refcount changes in librbd.
