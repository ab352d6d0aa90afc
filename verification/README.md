# ABIX runtime: a Dafny model

This project models the core of the ABIX C++ runtime (a header-only library for calling across module
boundaries with hot reload) and proves what it promises, for every run or every input. `dafny verify
dfyconfig.toml` checks all of it.

| files | component |
|---|---|
| `RcuDomain`, `RcuProtocol`, `RcuSafety`, `RcuGrace`, `RcuConservation`, `RcuFine`, `RcuStall`, `RcuTokens`, `RcuList` | epoch-based reclamation: the lock sections as functions, the interleaved step system, safety, which grace periods are proven, conservation, collections node by node, what a reader that stays does, exactness of tokens, and the linked lists the code mutates |
| `ImageReclaim`, `ImageOrder`, `SerializedRuns`, `RcuWitness`, `DllObject`, `FunctionCall` | hot reload on top of it: retiring images serially and in every interleaving, how the two fit, the runs that break the order, the object's operations, and calls through a shared handle |
| `Bits`, `SymbolSlots`, `SymbolIndex`, `SymbolPool` | the open-addressing symbol index, its lookups and its buffer pool |
| `Lease`, `InterfaceContract`, `ModuleRegistry`, `SlotBinding`, `InterfaceProxy` | the interface layer: leases, manifests, the compacting module registry, slot binding and proxies |
| `TypeModel`, `TypeRegistry`, `TypeAdmission`, `CanonicalHash`, `LayoutEncoding`, `MapPlan` | versioned type registration, the canonical hash, Canonical Layout Encoding v1 and mapping plans |

Concurrent code (`RCU/Domain.h`, `DLL/Function.h`, `Interface/Lease.h`) is a step system in which each atomic
memory access is one step and each section under the writer lock is one step; a run is any schedule of enabled
steps by any number of threads. `RcuFine` splits the collections further and shows that both grains have the same runs
wherever nobody collects. Objects that are updated in place are classes whose methods are proved against
functions on values, and the theorems are about those functions.

## Assumptions

- Interleavings are sequentially consistent.
- Read sections are not nested: `exit` clears the epoch unconditionally, and `SerializedRuns.InnerExitUnprotects` shows what
  nesting would do. A thread whose call returned without leaving its
  section may call again; its next `enter` publishes a new epoch over the old one, and it no longer uses what it had loaded.
- Objects are unlinked before they are retired and never linked again; image identities are fresh.
- No run uses `force_unload`, and callbacks are not null. Serialized runs of `retire_image` assume that both of its nodes
  can be allocated; the interleaved protocol does not.
- Epochs do not wrap at 2^64. Fewer than 2^32 lease handles exist at a time, so that the 32-bit counter is exact.
- Deadlines, the allocator, the loader and `wait_for_idle` are answers given as parameters.

## What the proofs found

Where the code and its comments differ, the model follows the code.

- The fast call path can call an entry of another name (the comment at DLL/Function.h:148-149 says never): the
  snapshot recorded by the slow path may be older than the table it validated, and another thread may have loaded
  that older image. `FunctionCall.WrongCallExactlyWhen` gives the exact condition; a handle used by one thread is
  always right.
- The slow path returns without leaving its section when the image has no export table (DLL/Function.h:191-192 with
  231-239), and only then (`FunctionCall.StrandingExactlyWhen`). Until its next section or its end that thread
  keeps every later grace period from being proven.
- `last_reclaim` keeps its value when an operation retires nothing (the comment at DLL/Object.h:95 says
  `not_attempted`): `DllObject.SecondUnloadReportsReclaimed`.
- The index callback of an image can run after the image has been deleted. `ImageOrder.FaultExactlyWhen` gives the guard,
  which two branches of the collector meet: the batched-only collection (RCU/Domain.h:537), and a collection of both classes
  whose eager half returns at its watermark (RCU/Domain.h:427). Serialized `retire_image` calls never meet it
  (`SerializedRuns.SerializedNeverBreaks`).
- `reclaimed_through` can answer true before the callback has run, and the recorded outcome with it: when the node was
  published at or below the watermark, and, for every node, between a collector's watermark store (RCU/Domain.h:428) and its
  callbacks, because the answer takes no lock. `RcuTokens.TokenEarlyExactlyWhen` gives the exact condition.
- `find_hash` stops at the first entry of the name when its version does not fit, `find_linear` goes on. The index
  supports at most 2^30 entries; beyond that the 32-bit capacity wraps.
- `pin` and `unpin` do not balance in all interleavings, in either direction: two handles and one unloader are enough, and
  needed (`Lease.UnbalancedExactlyWhen`). `Lease.PinsBalanceExactlyWhen` and `Lease.UndisturbedPinsBalance` say which runs
  balance. A lease can also be had before the pin is made, with two handles alone (`Lease.UnpinnedExactlyWhen`), although the
  comment at Interface/Lease.h:98-100 says that the first lease keeps the module mapped.
- With a repeated slot `fill_slot_entries` checks the first method and stores the last. `validate_manifest` excludes
  such tables, `InterfaceRegistry::add` does not. `InterfaceRef`, which keeps the signatures, is not affected.
- `SharedInterfaceProxy::bind` with a null object reports `invalid_table` and yet leaves the slots callable.

## Model

| member | source | states |
|---|---|---|
| `RcuSafety.NoReaderHoldsReclaimed` | include/SKL/ABIX/RCU/Domain.h:142-221 | In every interleaving of any number of readers, retirers, synchronizers, bounded waiters and `try_collect` callers, an object whose callback has run is held by no reader that is still in its section, stale epoch publications included |
| `RcuSafety.StepPreservesInv` | include/SKL/ABIX/RCU/Domain.h:274-445 | Every step of every thread, each lock section and each scan probe being one step, keeps the protocol invariant |
| `RcuFine.NoReaderHoldsReclaimed` | include/SKL/ABIX/RCU/Domain.h:425-445 | The same at every point of every collection: the watermark store, each node and the release of the lock are steps of their own, with readers and lock-free steps in between |
| `RcuFine.FineRunsAreRuns` | include/SKL/ABIX/RCU/Domain.h:425-445 | Every run at that grain is a run of the protocol with each collection at the release of its lock |
| `RcuFine.RunsAreFineRuns` | include/SKL/ABIX/RCU/Domain.h:425-445 | Conversely every run of the protocol can be carried out at that grain; in particular every collection comes to its end |
| `RcuSafety.AdvancementIsExclusive` | include/SKL/ABIX/RCU/Domain.h:385-416 | `sync` is non-zero exactly when one thread owns the advancement, and then equals the global epoch; both watermarks stay below it |
| `RcuSafety.WatermarksAreMonotone` | include/SKL/ABIX/RCU/Domain.h:425-428 | From every reachable state on, the epoch and both watermarks never go back |
| `RcuSafety.TrueMeansReclaimedThrough` | include/SKL/ABIX/RCU/Domain.h:546-605 | A `synchronize_until` that returned true has both watermarks at or above its epoch, for good |
| `RcuSafety.UnprovenWaitIsHarmless` | include/SKL/ABIX/RCU/Domain.h:554-603 | Every other step of `synchronize_until` moves no watermark, runs no callback, and clears only a `sync` this thread owned |
| `RcuSafety.BlockersOnlyShrink` | include/SKL/ABIX/RCU/Domain.h:353-359 | Once the epoch is past the target, the readers that can hold the grace period open only become fewer, enters in flight at the advance included |
| `RcuSafety.NonBlockerPasses` | include/SKL/ABIX/RCU/Domain.h:142-146 | A reader outside that set publishes no epoch from 1 to the target |
| `RcuGrace.ScanPassesNonBlocker` | include/SKL/ABIX/RCU/Domain.h:353-359 | The scan step goes past such a reader, one that entered after the advancement included, and changes nothing but its own place in the list |
| `RcuGrace.ScanOutcomeExactlyWhen` | include/SKL/ABIX/RCU/Domain.h:353-359 | A scan gives up if and only if the thread it looks at publishes an epoch from 1 to the target, and is proven if and only if no thread is left |
| `RcuGrace.ScanIsNeverSentBack` | include/SKL/ABIX/RCU/Domain.h:353-359 | From a scan whose target nobody holds open, in every interleaving what is left to examine is exactly what has not been examined, and the end of the list is the proof |
| `RcuGrace.GracePeriodIsProven` | include/SKL/ABIX/RCU/Domain.h:346-359 | An owner whose blockers are gone, whoever enters meanwhile: once it scans it never polls again, and it is proven after one probe more than there are threads; only a bounded wait that has polled before can expire instead |
| `RcuGrace.ScanCanFinish` | include/SKL/ABIX/RCU/Domain.h:534-539 | Such a scan can always be carried to its end: `sync` is cleared, the class is collected through the epoch, and a bounded wait returns true with both classes collected |
| `RcuGrace.AdvancementEnds` | include/SKL/ABIX/RCU/Domain.h:534-600 | An advancement ends only proven, with its class collected through its epoch; a bounded wait alone may give up, and only after a failed poll |
| `RcuGrace.ContendedWaits` | include/SKL/ABIX/RCU/Domain.h:498-514 | A `synchronize` that finds another owner publishes its batch and no more, and returns only after a point at which nobody owns an advancement |
| `RcuGrace.SynchronizeBegins` | include/SKL/ABIX/RCU/Domain.h:516-532 | With the advancement free the batched call only counts seven times out of eight; the eighth and every eager call advance the epoch by one and own it, and only the eighth resets the count |
| `RcuGrace.BoundedWaitBegins` | include/SKL/ABIX/RCU/Domain.h:385-403 | `synchronize_until` takes the advancement exactly if it is free, publishes its batch in either case and leaves the count alone |
| `RcuGrace.TryCollectBegins` | include/SKL/ABIX/RCU/Domain.h:201-209 | `try_collect` publishes its batch and starts its minimum at the current epoch over the whole thread list |
| `RcuGrace.EnterPublishesLoaded` | include/SKL/ABIX/RCU/Domain.h:142-148 | `enter` publishes exactly the epoch it loaded, whatever happens between its load and its store, and `exit` withdraws it |
| `RcuGrace.TryProbeExactly` | include/SKL/ABIX/RCU/Domain.h:209-213 | A reader lowers the minimum of `try_collect` if and only if it publishes a lower epoch, and then to exactly that epoch |
| `RcuGrace.TryCollectReaches` | include/SKL/ABIX/RCU/Domain.h:201-221 | A `try_collect` that begins with no reader at or below an epoch collects both classes through that epoch at least, in every interleaving and whoever enters after |
| `RcuStall.InsideReaderStalls` | include/SKL/ABIX/RCU/Domain.h:353-359 | As long as a reader stays in its section, neither watermark reaches the epoch at which it was seen there, whatever all others do |
| `RcuTokens.TokenEarlyExactlyWhen` | include/SKL/ABIX/RCU/Domain.h:168-172 | At every point of every run, collections in progress included, `reclaimed_through` answers true for a node in the list before its callback if and only if the node was published at or below its class's watermark, or a collector with a safe epoch at or above the node's holds the lock and has not reached it; for a reclaimed node it always answers true |
| `RcuTokens.PublicationDecides` | include/SKL/ABIX/RCU/Domain.h:282-290 | The step that publishes a node decides: from there on its token is answered early only while a collector is about to reach it, if and only if the node is above the watermark then |
| `RcuTokens.FailedRetirementIsNotAnswered` | include/SKL/ABIX/RCU/Domain.h:168-172 | The token 0 of a retirement that got no node is never answered as reclaimed |
| `RcuWitness.TokenCanBeEarly` | include/SKL/ABIX/RCU/Domain.h:168-172 | A run in which an image's token is answered as reclaimed while the image waits in its thread's batch |
| `RcuWitness.CollectorCanBeRead` | include/SKL/ABIX/RCU/Domain.h:426-440 | A run in which an image published above the watermark is answered, and its outcome would be recorded, as reclaimed between the collector's watermark store and the callback |
| `RcuTokens.AdvancementReclaims` | include/SKL/ABIX/RCU/Domain.h:516-539 | In every interleaving an advancement that comes to its end has reclaimed every node of the classes it collects that was in the list when it began |
| `RcuConservation.RetiredNodesAreConserved` | include/SKL/ABIX/RCU/Domain.h:274-345 | Over every run the nodes ever retired are, as a multiset, the reclaimed ones plus the published list plus the threads' local batches |
| `RcuConservation.CallbackRunsAtMostOnce` | include/SKL/ABIX/RCU/Domain.h:433-444 | No reclaim callback runs twice in any run |
| `RcuConservation.BatchesArePublished` | include/SKL/ABIX/RCU/Domain.h:282-292 | In every run a thread keeps fewer than 64 nodes to itself; the 64th is published with the others before that thread retires or synchronizes again |
| `RcuDomain.CollectSplitsList` | include/SKL/ABIX/RCU/Domain.h:425-445 | `collect` takes exactly the nodes of its class at or below the safe epoch, and what it keeps and takes make up the list |
| `RcuDomain.CollectKeepsOrder` | include/SKL/ABIX/RCU/Domain.h:433-444 | The nodes kept and the nodes taken each come in list order |
| `RcuDomain.CollectBothReaches` | include/SKL/ABIX/RCU/Domain.h:408-416 | Collecting both classes brings both watermarks to the safe epoch and conserves the nodes |
| `RcuList.Domain.PublishLocalBatchLocked` | include/SKL/ABIX/RCU/Domain.h:330-339 | The linked batch is spliced in front of the retired list and emptied |
| `RcuList.Domain.RetireImpl` | include/SKL/ABIX/RCU/Domain.h:274-292 | The node is appended to the batch with the current epoch, or the batch is published when it is full; without memory for the node nothing is queued and the token is 0 |
| `RcuList.Domain.Unlink` | include/SKL/ABIX/RCU/Domain.h:434-439 | Unlinking one node in place leaves the chain of the others as it was |
| `RcuList.Domain.Collect` | include/SKL/ABIX/RCU/Domain.h:425-445 | The in-place unlinking loop produces exactly the list, watermark and callback order of the pure `Collect` |
| `RcuList.Domain.SyncBegin` | include/SKL/ABIX/RCU/Domain.h:498-532 | The first lock section of `synchronize_impl` on the linked lists equals the abstract section |
| `RcuList.Domain.SyncEnd` | include/SKL/ABIX/RCU/Domain.h:536-539 | The second lock section likewise |
| `RcuList.Domain.BeginAdvance` | include/SKL/ABIX/RCU/Domain.h:385-403 | `begin_advance` fails exactly when `sync` is taken, and otherwise advances and takes it |
| `RcuList.Domain.EndAdvance` | include/SKL/ABIX/RCU/Domain.h:408-416 | `end_advance` collects both classes only on a proven grace period and clears `sync` |
| `RcuList.Domain.Synchronize` | include/SKL/ABIX/RCU/Domain.h:498-544 | `synchronize` and `synchronize_eager` as a whole; a call that finds another owner publishes its batch and no more |
| `RcuList.Domain.SynchronizeUntil` | include/SKL/ABIX/RCU/Domain.h:546-605 | The bounded wait as a whole: true exactly when it got the advancement and the grace period was proven in time; without the advancement only the batch is published |
| `ImageReclaim.OperationEffect` | include/SKL/ABIX/DLL/Object.h:185-203 | What one `retire_image` does to the domain, in all four cases of policy, deadline and batch count |
| `ImageReclaim.OutcomeIsHonest` | include/SKL/ABIX/DLL/Object.h:205-217 | After any serialized run, the recorded outcome is `reclaimed` exactly when the image's callback has run, and otherwise names the reason; `ImageOrder.OutcomeHonestExactlyWhen` is the statement for all interleavings |
| `ImageReclaim.WaitIsBounded` | include/SKL/ABIX/RCU/Domain.h:516-523 | In every serialized run no retired image survives as many later `synchronize()` calls as the epoch batch; `RcuTokens.AdvancementReclaims` is the statement for all interleavings, in which an unpublished image can wait longer |
| `ImageReclaim.IndexReclaimedFirst` | include/SKL/ABIX/DLL/Object.h:142-154 | In every serialized run no callback runs twice and an image's index callback runs before the image's own; `ImageOrder.OrderBreaksExactlyWhen` is the statement for all interleavings |
| `ImageReclaim.BuffersReleasedOnce` | include/SKL/ABIX/DLL/Object.h:142-154 | In every serialized run each image's slot buffer is released exactly once and no callback touches a deleted image; `ImageOrder.FaultExactlyWhen` and `ImageOrder.BufferReleasedOnce` are the statements for all interleavings |
| `ImageOrder.OrderBreaksExactlyWhen` | include/SKL/ABIX/RCU/Domain.h:425-445 | In every interleaving of `retire_image` calls with everything else, an image is reclaimed before its retired index if and only if some collection of the batched class found it due with its index still in the list, and did not collect the eager class: because it was the batched-only one (Domain.h:537) or because the eager watermark was already there (Domain.h:427) |
| `ImageOrder.FaultExactlyWhen` | include/SKL/ABIX/DLL/Object.h:142-154 | In every such interleaving a callback runs inside a deleted image if and only if that guard was met for some image whose index has been reclaimed since |
| `ImageOrder.BufferReleasedOnce` | include/SKL/ABIX/DLL/Object.h:142-154 | Whatever the order of the two callbacks, the slot buffer is released by the first of them and by no other |
| `ImageOrder.OutcomeHonestExactlyWhen` | include/SKL/ABIX/DLL/Object.h:205-217 | At every point of every run, collections in progress included, the outcome recorded for a published image is honest if and only if its callback has run, or it was published above the batched watermark and no collector is about to reach it |
| `SerializedRuns.SerializedNeverBreaks` | include/SKL/ABIX/DLL/Object.h:185-218 | Every sequence of serialized operations, with any policies and deadlines, is a run of the interleaved protocol that ends with the same domain, and the guard above is met in it for no image |
| `SerializedRuns.InnerExitUnprotects` | include/SKL/ABIX/RCU/Domain.h:142-148 | A run that shows why sections must not be nested: after the exit of an inner section, what the outer section holds is reclaimed under it |
| `RcuWitness.BatchedSyncCanFault` | include/SKL/ABIX/RCU/Domain.h:536-539 | A run of a bounded `retire_image` against another thread's eighth `synchronize()` that ends with `reclaim_index` inside a deleted image |
| `RcuWitness.TryCollectCanBreakOrder` | include/SKL/ABIX/RCU/Domain.h:201-221 | A run in which `try_collect`, which collects both classes, deletes an image before its index because the eager watermark is already there |
| `DllObject.RetireImage` | include/SKL/ABIX/DLL/Object.h:185-218 | With any nodes in the batch. Without a timeout the index callback runs at once, and the image waits for the batch (`deferred_batched`, batched watermark unchanged) unless this is the eighth call, which reclaims it (`reclaimed`). With a timeout, a grace period proven in time reclaims both (`reclaimed`); otherwise, a taken advancement included, both stay listed, no watermark moves and no callback runs (`deferred_timeout`) |
| `ImageReclaim.UnboundedReaches` | include/SKL/ABIX/DLL/Object.h:200-202 | The unbounded branch for every batch: where index and image are afterwards, both watermarks, the epoch and the counter |
| `ImageReclaim.BoundedReaches` | include/SKL/ABIX/DLL/Object.h:193-199 | The bounded branch likewise, proven, unproven or without the advancement |
| `ImageReclaim.UnqueuedImageIsNotReclaimed` | include/SKL/ABIX/DLL/Object.h:205-216 | An image that got no node is not recorded as reclaimed |
| `DllObject.DefaultReloads` | include/SKL/ABIX/DLL/Object.h:185-218 | After any number of reloads under the default policy the last one reports `reclaimed` exactly if that number is a multiple of eight, and otherwise `deferred_batched` |
| `ImageReclaim.RetireFromNothing` | include/SKL/ABIX/DLL/Object.h:185-203 | With an empty batch and the advancement free that operation is the one of the serialized runs |
| `DllObject.PublishImage` | include/SKL/ABIX/DLL/Object.h:442-450 | The swap happens under the lock or not at all; the previous image is retired; without one the outcome is left alone |
| `DllObject.Load` | include/SKL/ABIX/DLL/Object.h:250-278 | A failed load changes nothing; a successful one makes its image current and active and retires the previous one, and without a previous one domain and outcome stay as they were |
| `DllObject.Unload` | include/SKL/ABIX/DLL/Object.h:485-505 | Refused while other handles live or the lock is not obtained, and then nothing changes, the recorded outcome included; otherwise detaches and retires |
| `DllObject.SecondUnloadReportsReclaimed` | include/SKL/ABIX/DLL/Object.h:485-505 | A second unload, which retires nothing, still reports that an image was reclaimed |
| `FunctionCall.NativeCallIsProtected` | include/SKL/ABIX/DLL/Function.h:136-221 | For any threads sharing the handle and any reloads, calls made after a call that never left its section included: while an entry is being called, its image has a table, the handle's index lies inside it, the entry has the handle's hash and signature and a non-zero pointer, on the slow path the name as well, and neither the image nor its index has been reclaimed |
| `FunctionCall.SlowCheckExactlyWhen` | include/SKL/ABIX/DLL/Function.h:191-211 | The slow path calls if and only if table, bounds, hash, signature, name and pointer are all right; an image without a table strands the call, and every other mismatch leaves the section without a call |
| `FunctionCall.FastCheckExactlyWhen` | include/SKL/ABIX/DLL/Function.h:156-178 | The fast path calls if and only if the loaded image is the recorded one and bounds, hash, signature and pointer are right; otherwise it leaves the section |
| `FunctionCall.UnloadedIsNeverCalled` | include/SKL/ABIX/DLL/Function.h:156-192 | A call that begins after the image is gone, and while no other is published, calls nothing, in every interleaving |
| `FunctionCall.InactiveIsNeverCalled` | include/SKL/ABIX/DLL/Function.h:181-185 | As long as the library has never been active, no call gets past the state check and nothing is called |
| `FunctionCall.CallsLeaveTheirSection` | include/SKL/ABIX/DLL/Function.h:179-220 | A thread is outside its section between calls, also after a call that followed a stranded one; a stranded thread is inside |
| `FunctionCall.StrandingExactlyWhen` | include/SKL/ABIX/DLL/Function.h:191-192 | Some run over a set of images makes a call return from inside its section if and only if the set has an image without an export table |
| `FunctionCall.StrandedCallerStalls` | include/SKL/ABIX/DLL/Function.h:231-239 | Until its next section or its end, a stranded thread keeps every later grace period from being proven: no watermark reaches the epoch at which it was stranded |
| `FunctionCall.WrongCallExactlyWhen` | include/SKL/ABIX/DLL/Function.h:142-211 | Threads sharing a handle can reach a fast call of a wrong name if and only if some image looks right by hash and signature with another name and some image is right |
| `FunctionCall.WrongCallNeedsBoth` | include/SKL/ABIX/DLL/Function.h:156-178 | A wrong call in a run requires both kinds of table among the images loaded |
| `FunctionCall.WrongCallPossible` | include/SKL/ABIX/DLL/Function.h:187-211 | From any such pair of tables two threads do reach a wrong call |
| `FunctionCall.OneCallerIsAlwaysRight` | include/SKL/ABIX/DLL/Function.h:142-178 | When one thread uses the handle, whatever reloads others do, every call is of an entry with the right name |
| `Bits.NextPow2IsLeast` | include/SKL/ABIX/Runtime/Search.h:55-64 | The bit smearing gives the least power of two that is large enough, exactly up to 2^31; above, the increment wraps to 0 |
| `SymbolIndex.CapacityExceedsCountExactlyWhen` | include/SKL/ABIX/Runtime/Search.h:180-183 | The capacity leaves a free slot if and only if the table has at most 2^30 entries |
| `SymbolIndex.MaskIsHome` | include/SKL/ABIX/Runtime/Search.h:199-201 | Masking a hash with the capacity less one is its remainder, so all probes start at the same home |
| `SymbolSlots.FilledIsWellPlaced` | include/SKL/ABIX/Runtime/Search.h:194-204 | Inserting any table in order puts every entry in a slot of its own, with no empty slot between its home and it, and entries of equal hash in table order along the chain |
| `SymbolSlots.OneSlotEach` | include/SKL/ABIX/Runtime/Search.h:197-204 | No entry is recorded in two slots |
| `SymbolSlots.ProbeStops` | include/SKL/ABIX/Runtime/Search.h:200-201 | A probe in a table that is not full meets an empty slot within one round |
| `SymbolSlots.FilledLoad` | include/SKL/ABIX/Runtime/Search.h:197-204 | After inserting n entries exactly n slots are occupied |
| `SymbolPool.HashIndex.Fill` | include/SKL/ABIX/Runtime/Search.h:194-205 | Building on any buffer, dirty or new, gives the same slots: those of inserting the entries in order into an empty table |
| `SymbolPool.HashIndex.Build` | include/SKL/ABIX/Runtime/Search.h:180-205 | A build leaves the index built over the table or, only when the allocator refuses, empty; the parked buffer is reused exactly when its size fits; what is issued, freed, parked and owned afterwards is stated in full; other indexes keep their slots |
| `SymbolPool.HashIndex.Release` | include/SKL/ABIX/Runtime/Search.h:214-222 | The buffer goes to the pool or is freed, exactly once, and which buffer is freed is stated |
| `SymbolPool.HashIndex.Destroy` | include/SKL/ABIX/Runtime/Search.h:207-211 | The index is empty afterwards and owns nothing; which buffer is parked and which is freed is stated |
| `SymbolPool.SlotPool.Take` | include/SKL/ABIX/Runtime/Search.h:122-132 | Hands out the parked buffer on an exact capacity match only, and keeps the ledger of owners |
| `SymbolPool.SlotPool.Offer` | include/SKL/ABIX/Runtime/Search.h:141-154 | Parks a buffer inside the window unless one of that size is parked, and frees the one left over; the parked capacity stays inside the window |
| `SymbolIndex.FindLinear` | include/SKL/ABIX/Runtime/Search.h:232-252 | Reports the first entry of that name that is unversioned, of the version asked for, or any if none is asked for, as ok or signature mismatch by its signature; not found exactly if every entry of the name is of another version; bad table exactly for a null name or a wrong magic number |
| `SymbolIndex.LookupLinear` | include/SKL/ABIX/Runtime/Search.h:262-271 | Reports the first entry of that name and signature, and nothing exactly if there is none |
| `SymbolPool.FindHash` | include/SKL/ABIX/Runtime/Search.h:277-307 | The probe loop terminates and the lowest entry of that name decides: version mismatch exactly if it has a version other than the one asked for, otherwise ok or signature mismatch; not found exactly if no entry has the name |
| `SymbolPool.LookupHash` | include/SKL/ABIX/Runtime/Search.h:318-330 | On a built index the result equals that of the linear lookup, always: the first entry of that name and signature |
| `SymbolPool.FindIndex` | include/SKL/ABIX/Runtime/Search.h:336-340 | The index decides when there is one, the scan otherwise |
| `SymbolIndex.HashAgreesExactlyWhen` | include/SKL/ABIX/Runtime/Search.h:232-307 | Indexed search and scan give the same result and index if and only if no version is asked for or the lowest entry of that name is unversioned or of that version; otherwise the index reports a version mismatch there |
| `SymbolIndex.HashAndLinearCanDiffer` | include/SKL/ABIX/Runtime/Search.h:232-307 | A table with two versions of one name on which the two searches differ |
| `Lease.NoLeaseAfterIdle` | include/SKL/ABIX/Interface/Lease.h:101-148 | Once an unloader has begun the unload and seen a zero count, nobody holds a lease and nobody ever obtains one, in every continuation |
| `Lease.StateIsMonotone` | include/SKL/ABIX/Interface/Lease.h:121-148 | The module state only moves forward through loading, active, draining, unloaded |
| `Lease.LeasesOnlyShrink` | include/SKL/ABIX/Interface/Lease.h:101-112 | After the unload has begun no handle gains a lease |
| `Lease.LateHandlesStayOut` | include/SKL/ABIX/Interface/Lease.h:101-102 | A handle that begins to acquire after the unload has begun touches neither the count nor the pins |
| `Lease.CountIsExact` | include/SKL/ABIX/Interface/Lease.h:101-119 | The counter equals the number of handles between increment and decrement; zero means that nobody holds a lease |
| `Lease.ActiveAcquires` | include/SKL/ABIX/Interface/Lease.h:101-112 | On an active module an acquire that nobody interrupts gets the lease, and pins the module exactly if it is the first |
| `Lease.ReturnUndoesAcquire` | include/SKL/ABIX/Interface/Lease.h:101-119 | The release that follows restores the state before the acquire |
| `Lease.IdleUnloadFinishes` | include/SKL/ABIX/Interface/Lease.h:123-148 | An unload without leases closes the module and comes to its end, also when another one has begun or ended before |
| `Lease.BusyUnloadKeeps` | include/SKL/ABIX/Interface/Lease.h:139-144 | A wait that gives up changes nothing but its answer, which is busy exactly if leases are held |
| `Lease.FailedExchangeRetries` | include/SKL/ABIX/Interface/Lease.h:130-134 | A spurious failure of the exchange changes nothing and reloads the state |
| `Lease.PinsBalanceExactlyWhen` | include/SKL/ABIX/Interface/Lease.h:103-119 | At rest the net number of pins is zero if and only if the back-outs that raised the count from zero are as many as those that dropped it to zero |
| `Lease.UnbalancedExactlyWhen` | include/SKL/ABIX/Interface/Lease.h:101-132 | Some run ends at rest with unbalanced pins if and only if there are at least two lease handles and an unloader |
| `Lease.UndisturbedPinsBalance` | include/SKL/ABIX/Interface/Lease.h:108-119 | When no unload begins while an acquire is in flight, the pins made, with those still owed and less the unpins still to be made, are one while the count is positive and none otherwise; at rest they balance |
| `Lease.UnpinnedExactlyWhen` | include/SKL/ABIX/Interface/Lease.h:98-112 | Some run reaches a handle that has its lease on a module that is not pinned if and only if there are at least two handles; no unloader is needed |
| `Lease.LeaseBeforePin` | include/SKL/ABIX/Interface/Lease.h:98-112 | The run: a second handle gets its lease between the increment and the pin of the first |
| `Lease.PinCanLeak` | include/SKL/ABIX/Interface/Lease.h:103-119 | A run that leaves the module pinned with no lease |
| `Lease.UnpinCanUnderflow` | include/SKL/ABIX/Interface/Lease.h:103-119 | A run that unpins more often than it pins |
| `InterfaceContract.ValidateManifest` | include/SKL/ABIX/Interface/Module.h:134-151 | Accepts exactly the manifests of version 1 with at most 4096 interfaces, each with an identity and at most 65536 methods in different slots, and no missing array; otherwise reports the first fault |
| `ModuleRegistry.Registry.RegisterModule` | include/SKL/ABIX/Interface/ModuleRegistry.h:92-138 | The first of the six failing checks, each spelled out, decides the status and then nothing has changed; otherwise the module is active under a number never used before and its bindings stand last |
| `ModuleRegistry.Registry.UnregisterModule` | include/SKL/ABIX/Interface/ModuleRegistry.h:142-164 | Exactly the registration with that number leaves the list, and only when idle; a busy one stays, draining; all others are untouched |
| `ModuleRegistry.Registry.Compact` | include/SKL/ABIX/Interface/ModuleRegistry.h:148-152 | The in-place shift removes exactly the range and keeps the order of the rest |
| `ModuleRegistry.Registry.ShiftSlots` | include/SKL/ABIX/Interface/ModuleRegistry.h:153-162 | The ranges that begin later move down and the slot is freed |
| `ModuleRegistry.TiledRemove` | include/SKL/ABIX/Interface/ModuleRegistry.h:148-162 | Comparing `begin` with `>` is enough, empty modules included: the used slots' ranges tile the shortened list |
| `ModuleRegistry.BindingHasOneSlot` | include/SKL/ABIX/Interface/ModuleRegistry.h:120-137 | Every binding lies in exactly one used slot's range, and belongs to that slot's module |
| `ModuleRegistry.Registry.FindInterface` | include/SKL/ABIX/Interface/ModuleRegistry.h:176-184 | The first `max` bindings of that interface, of that version unless it is 0, in registration order; all of them if there are fewer |
| `ModuleRegistry.MatchingExactly` | include/SKL/ABIX/Interface/ModuleRegistry.h:176-184 | Every binding of that interface and version is among the matching ones as often as in the list, and no other |
| `ModuleRegistry.MatchingConcat` | include/SKL/ABIX/Interface/ModuleRegistry.h:176-184 | The matching bindings come in the order of the list |
| `ModuleRegistry.Registry.FindFirst` | include/SKL/ABIX/Interface/ModuleRegistry.h:187-195 | The newest matching binding, the latest registered among equals |
| `SlotBinding.BindSucceedsExactlyWhen` | include/SKL/ABIX/Interface/Ref.h:162-192 | With distinct slots a fill succeeds if and only if every slot fits and every expected slot has an adapter of the expected signature |
| `SlotBinding.FillFailsWith` | include/SKL/ABIX/Interface/Ref.h:162-186 | Which fault a failing fill reports, repeated slots included: a slot that does not fit first, then the first contract slot whose first method is missing or has no adapter (method not found) or another signature |
| `SlotBinding.BoundSlotsAreChecked` | include/SKL/ABIX/Interface/Ref.h:172-191 | What a successful fill caches at every slot: the adapter recorded for it, non-zero and of the expected signature where one is expected, and nothing elsewhere |
| `SlotBinding.CachedAsExpectedExactlyWhen` | include/SKL/ABIX/Interface/Ref.h:177-190 | With repeated slots a successful fill caches a callable adapter of the expected signature if and only if some method of the slot has that signature and the last method's adapter, which is not null |
| `SlotBinding.RepeatedSlotEscapesCheck` | include/SKL/ABIX/Interface/Ref.h:177-190 | Tables with a repeated slot that bind: one caches an adapter of another signature, one caches nothing callable, one is fine |
| `SlotBinding.VerifiedAdapterIsRecorded` | include/SKL/ABIX/Interface/Ref.h:58-77 | A handle that keeps the signatures pairs adapter and signature of one method at every slot, repeated slots included |
| `InterfaceProxy.InterfaceRef.ResolveMethods` | include/SKL/ABIX/Interface/Ref.h:58-77 | Binds any table whose slots fit, without a signature check; a failed binding leaves no slot callable |
| `InterfaceProxy.InterfaceRef.Verify` | include/SKL/ABIX/Interface/Ref.h:111-117 | Accepts a slot for an expected signature only if its cached adapter is recorded there with that signature |
| `InterfaceProxy.FillSlotEntries` | include/SKL/ABIX/Interface/Ref.h:162-192 | The status is that of the first fault, and on failure nothing is stored |
| `InterfaceProxy.InterfaceRegistry.Add` | include/SKL/ABIX/Interface/Registry.h:39-51 | Appends exactly one implementation or changes nothing; no two for the same type, interface and version |
| `InterfaceProxy.InterfaceRegistry.Find` | include/SKL/ABIX/Interface/Registry.h:55-71 | Version 0 finds the newest implementation, another version exactly that one |
| `SlotBinding.FindExactly` | include/SKL/ABIX/Interface/Registry.h:55-71 | A lookup finds a newest implementation for that type and interface, of exactly that version unless it is 0, and nothing only if there is none; a failed one reports a version mismatch exactly if another version is there |
| `InterfaceProxy.UniqueInterfaceProxy.Bind` | include/SKL/ABIX/Interface/Proxy.h:92-96 | Status and adapters are what registry and contract determine; a failed bind leaves no slot callable |
| `InterfaceProxy.UniqueInterfaceProxy.BindMethods` | include/SKL/ABIX/Interface/Proxy.h:101-113 | Only this contract's identity and version bind; every failure leaves no slot callable |
| `InterfaceProxy.InterfaceSlotTable.Make` | include/SKL/ABIX/Interface/Proxy.h:163-175 | The table holds what registry and contract determine, and is ready exactly on success |
| `InterfaceProxy.SharedInterfaceProxy.Bind` | include/SKL/ABIX/Interface/Proxy.h:206-221 | A failed bind leaves a slot callable if and only if the object is null and the registry has an adapter for that slot |
| `InterfaceProxy.NullObjectLeavesSlotCallable` | include/SKL/ABIX/Interface/Proxy.h:206-221 | A bind to a null object that fails and leaves its slot callable |
| `InterfaceProxy.BindBoth` | include/SKL/ABIX/Interface/Proxy.h:92-221 | For the same registry, type, version and non-null object a unique and a shared proxy agree on status and on the adapter at every slot |
| `TypeModel.ValidModule` | include/SKL/ABIX/Metadata/Descriptor.h:103-133 | The nested loops accept exactly the descriptors that are consistent field by field |
| `TypeModel.AlignedExactlyPowersOfTwo` | include/SKL/ABIX/Runtime/Registry.h:207-209 | The bit test accepts exactly the powers of two |
| `TypeRegistry.CanonicalRegistry.RegisterType` | include/SKL/ABIX/Metadata/Registry.h:57-70 | Invalid exactly for a missing record, a zero identity or size or an alignment that is no power of two; a known type is already registered if its recorded layout is equal and a conflict otherwise; a new one is appended while there is room |
| `TypeRegistry.Registry.CheckModule` | include/SKL/ABIX/Runtime/Registry.h:95-122 | The dry run reports the first fault and changes nothing |
| `TypeAdmission.CheckStatusExactly` | include/SKL/ABIX/Runtime/Registry.h:95-122 | The status of every module against every registry, said without the loops: unsound descriptors, then the first type that repeats an earlier one, is misaligned or differs from a registered layout, then the room for the types not yet registered, then references that resolve nowhere |
| `TypeAdmission.ModuleFitsExactly` | include/SKL/ABIX/Metadata/Descriptor.h:103-133 | A descriptor is valid if and only if its three records of every type are equal in identity and layout and nothing in them is zero, missing or out of bounds |
| `TypeAdmission.AddedExactly` | include/SKL/ABIX/Runtime/Registry.h:61-83 | What a registration adds is one entry, with the module's own records and the version, for each type not registered under it before |
| `TypeRegistry.Registry.RegisterModule` | include/SKL/ABIX/Runtime/Registry.h:55-86 | All or nothing: a module that passes the check is entered completely, any other status leaves the registry as it was, and an accepted module can be registered again without effect |
| `TypeRegistry.Registry.AddType` | include/SKL/ABIX/Runtime/Registry.h:65-83 | After a passed check neither the canonical registry nor the capacity can refuse a type |
| `TypeRegistry.ValidAfter` | include/SKL/ABIX/Runtime/Registry.h:110-121 | After a registration every referenced type resolves and every module accepted earlier still is |
| `TypeRegistry.ReRegisterIsNoOp` | include/SKL/ABIX/Runtime/Registry.h:62-65 | An accepted module passes the check again and adds nothing |
| `TypeRegistry.AcceptedModulesAgree` | include/SKL/ABIX/Runtime/Registry.h:98-108 | Two modules accepted under one version have equal layouts, hash included, for every type they share |
| `TypeRegistry.ConflictIsRefused` | include/SKL/ABIX/Runtime/Registry.h:102-104 | A module with a layout of a registered type that is not equal to the accepted one is refused |
| `TypeRegistry.Registry.Validate` | include/SKL/ABIX/Runtime/Registry.h:129-140 | Ok if and only if every entry has a canonical record and its own records are equal to its descriptor in identity, size, alignment and layout hash, which holds in every reachable state; each failure names an entry of its kind |
| `TypeRegistry.Registry.FindById` | include/SKL/ABIX/Runtime/Registry.h:154-161 | The newest registered version of a type, the latest among equals |
| `CanonicalHash.OneByteNeverCollides` | include/SKL/ABIX/Util/Hash.h:54-64 | Inputs of equal length that differ in exactly one byte never collide, in either lane, from any state |
| `CanonicalHash.DomainsNeverCollide` | include/SKL/ABIX/Util/Hash.h:50-58 | The same bytes under two domains never collide, in either lane |
| `CanonicalHash.DifferenceSurvives` | include/SKL/ABIX/Util/Hash.h:54-64 | Each step is a bijection of each lane, so a difference between states survives any bytes that follow |
| `CanonicalHash.LowLaneIsFnv1a` | include/SKL/ABIX/Util/Hash.h:36-58 | The low lane is FNV-1a 64 as in section 2 of draft-eastlake-fnv, with the domain mixed into the offset basis |
| `CanonicalHash.HighLaneIs` | include/SKL/ABIX/Util/Hash.h:36-58 | The high lane is the fold from the FNV prime plus the domain that mixes in each octet plus 31 and multiplies by the second prime of XXH64 |
| `CanonicalHash.BigEndian32` | include/SKL/ABIX/Util/Hash.h:68-72 | The four bytes of a value, the highest first |
| `CanonicalHash.BigEndian64` | include/SKL/ABIX/Util/Hash.h:74-78 | The eight bytes of a value, the highest first |
| `CanonicalHash.CanonicalHashU32` | include/SKL/ABIX/Util/Hash.h:68-72 | Hashing a 32-bit value is hashing its big-endian bytes |
| `CanonicalHash.CanonicalHashU64` | include/SKL/ABIX/Util/Hash.h:74-78 | Hashing a 64-bit value is hashing its big-endian bytes |
| `LayoutEncoding.EncodingLength` | include/SKL/ABIX/Model/Compat.h:119-141 | An encoding has exactly 54 bytes and 24 more for each field |
| `LayoutEncoding.EncodingBegins` | include/SKL/ABIX/Model/Compat.h:122-125 | Every encoding begins with the bytes of "ABIX-CLE" and of version 1 |
| `LayoutEncoding.FlagsExactly` | include/SKL/ABIX/Model/Compat.h:56-58 | The flags that enter are the upper half and the two lowest bits |
| `LayoutEncoding.EncodingRoundTrip` | include/SKL/ABIX/Model/Compat.h:119-141 | A decoder recovers context, type, size, alignment and every field's type, offset and masked flags from every encoding |
| `LayoutEncoding.EncodingsEqualExactlyWhen` | include/SKL/ABIX/Model/Compat.h:58-141 | Two layouts have the same encoding if and only if they agree on everything but the flag bits outside the mask |
| `LayoutEncoding.EncodeCanonicalLayout` | include/SKL/ABIX/Model/Compat.h:145-149 | Writes the whole encoding and returns its length, or 0 exactly when it does not fit or the fields are missing; nothing beyond the capacity is touched |
| `LayoutEncoding.CanonicalLayoutHash` | include/SKL/ABIX/Model/Compat.h:151-156 | The digest is the byte-wise hash, in the domain "LAYOUTV1", of exactly the encoded bytes, or zero when the fields are missing |
| `MapPlan.Apply` | include/SKL/ABIX/Model/Map.h:57-105 | The target ends up as the sequential fold of the operations before the first invalid one, which are all of them on success |
| `MapPlan.OpOkExactly` | include/SKL/ABIX/Model/Map.h:64-102 | Which operations run, opcode by opcode, by plain arithmetic on offsets and sizes |
| `MapPlan.StepExactly` | include/SKL/ABIX/Model/Map.h:64-84 | What one operation makes of every byte of the target |
| `MapPlan.UnwrittenKept` | include/SKL/ABIX/Model/Map.h:64-103 | Bytes that no operation writes are unchanged |
| `MapPlan.WritesInside` | include/SKL/ABIX/Model/Map.h:118-127 | Every byte written lies inside the target layout and every byte read inside the source layout |
| `MapPlan.LastWriterDecides` | include/SKL/ABIX/Model/Map.h:66-84 | Where operations overlap, the last one that writes a byte decides it |
| `MapPlan.CopiesAreExact` | include/SKL/ABIX/Model/Map.h:67-76 | A copy plan with disjoint target ranges makes every target range equal to its source range |
| `MapPlan.SwappedPlanRestores` | include/SKL/ABIX/Model/Map.h:67-76 | Mapping back with source and target exchanged restores every source byte the plan read, whatever the buffer held and even where source ranges overlap |

## Left out

- OS loader calls, symbol resolution and platform pinning: foreign calls; a load produces a fresh image with an arbitrary table.
- Weak-memory behaviour and the atomic backends: outside an interleaving model.
- `force_unload` and `raw()` pointers kept after the section: guaranteed by the caller, no invariant to prove.
- `try_resolve`: the handle's index, name hash and signature are given; only calls through it are modelled.
- The error codes a refused call stores in `last_error()`: where the call goes is modelled.
- RCU statistics, clock conversion and logging: diagnostics only.
- Thread list as a linked structure: registration appends to a sequence of threads.
- `SlotPool`'s own spin lock and destructor: each pool operation is one atomic method.
- `SharedInterfaceProxy::bind_methods`: builds its table as the modelled `bind` does, without the lookup.
- `InterfaceRef::resolve`: the registry lookup of the modelled proxies in front of the modelled `resolve_methods`.
- `bind_interface` and `BoundInterface`: acquiring a lease, then the modelled `InterfaceRef::resolve_methods`.
- `parse_version` and `bootstrap_self`: the version is a parameter, and the canonical registry starts empty.
- `abi_signature_hash`, `interface_id` and the canonical type names: further inputs to the modelled hash engine.
- Converter callbacks in mapping plans: foreign code; plans are applied without a converter, and then converting operations are invalid.
- Binary/ELF.h, MachO.h, PE.h, the smart pointers, `Owner.h`, closures, the declaration macros, Bridge/ and STD/: bounds checks, counting and compile-time code.
- RcuList.Domain.SynchronizeUntil: does not retry a lost advancement, because what another thread does meanwhile is a step of the interleaved system; a call that loses it gives up.
- ImageReclaim.OutcomeIsHonest: speaks of serialized runs, because `ImageOrder.OutcomeHonestExactlyWhen` speaks of all.
- ImageReclaim.IndexReclaimedFirst: speaks of serialized runs, because `ImageOrder.OrderBreaksExactlyWhen` speaks of all.
- ImageReclaim.BuffersReleasedOnce: speaks of serialized runs, because `ImageOrder.FaultExactlyWhen` speaks of all.
- ImageReclaim.WaitIsBounded: speaks of serialized runs, because `RcuTokens.AdvancementReclaims` speaks of all.
- DllObject.RetireImage: leaves out an unbounded call that finds the advancement taken, because it waits for what another thread does.
- Lease.UndisturbedPinsBalance: does not say what holds in disturbed runs, because `Lease.PinsBalanceExactlyWhen` does.
