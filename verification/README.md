# Verified models of ReactOS kernel algorithms

Dafny models of several parts of the ReactOS kernel, with proofs of what these parts are for. Each part is modelled
in the form its source has: loops over lists and buffers are methods with invariants, objects that are updated in
place are classes, and protocols that several threads run at once are step functions over a shared state, where a
run is any sequence of steps.

* **File cache** (`CacheState`, `CacheData`, `Cache`, `CacheReplay`, `FlushLoop`). A file is cached in stripes of
  256 KB with a reference count, valid and dirty flags and a mapped count, on a sorted list per file, an LRU list
  and a dirty list. The invariant says what every reference count is made of, that the lists and page counts agree
  with the flags, that a dirty stripe is valid, and that the medium holds the file wherever no dirty stripe covers
  it. Every operation keeps it; `Replay` shows that no sequence of operations can be told from plain byte arrays.
* **Flushing while copying** (`FlushRace`, `FlushRaceExact`). One stripe under any number of flushers and copiers, byte
  by byte, and exactly which overlaps of them can lose a byte or break an assertion.
* **Worker pool and deferred writes** (`LazyWriter`, `DeferredWrites`). Two work queues, idle and active workers, a
  throttle and a barrier item; and the queue of writes that wait until CcCanIWrite lets them go.
* **Boot driver order** (`Inversions`, `BootDriverList`, `BootOrderSpec`, `BootOrder`). A circular doubly linked list
  sorted by move-to-front passes and an in-place tag sort that inserts one place too early and repairs itself.
* **IRP cancellation** (`IrpQueue`, `IrpCancel`). Queue, dequeue and cancel race on a cancel routine and a lock.
* **Registry** (`KcbState`, `KcbTable`, `KcbCache`, `Slab`, `HiveCells`, `ValueState`, `ValueStore`, `CopyCost`,
  `CopyTrail`, `DeepCopy`). Reference counts of key control blocks over their tree with delayed closes and deferred dereferences, the slab
  allocator below them, the values of a key with short data inline and longer data in cells, and the copy of a
  whole tree of keys, which may fail at any cell.
* **Callbacks** (`Rundown`, `CallbackList`). Fast references batched against a run-down count, and lists of callbacks
  that are walked with the lock dropped during each call.

`Options`, `Bytes`, `Names` and `Seqs` hold what several modules share.

## What the proofs found

Each property that turned out false has a lemma or method at a failing input and a theorem with its exact condition.

* `FlushRaceExact`: a fill that overlaps a write can lose the write, and so can a single CcFlushCache, which reads the
  valid flag, and stores what it read without a lock when it releases the stripe. `LossExactly`: this can happen
  exactly when one thread may yet store FALSE as the flag while another writes a byte that differs from the medium.
  Flushers that only drop their reference, and copiers that do not fill, do no harm. The losing run of that theorem may
  contain a failed read; `UnreadFillLoses` needs none, if the fill has not come to the byte yet.
* `FlushRaceExact`: the assertions on the dirty flag can fail. `AssertionsExactly`: exactly when a flusher meets another
  flusher or a thread that may mark the stripe, or when two threads may mark a clean one.
* `FlushLoop`: CcRosFlushDirtyPages goes on forever when all eligible stripes left keep failing for another reason
  than write protection. `EndsExactly` gives the exact condition.
* `PurgeCacheSection`: a stripe that ends exactly where the range ends is not purged, and success is reported.
  `PurgeExact`: success means an empty range exactly when there was no such stripe.
* `FlushCache`: from an offset inside a stripe the loop may not come to the stripe in which the range ends.
  `FlushReaches` says exactly when a dirty stripe of the range is left.
* `DeleteFileCache`: only stripes up to the file's size are written back, while the section may be larger; what is dirty
  behind is thrown away. `FlushSavesExactly` says exactly when nothing is lost.
* `ValueStore`: the shortcut that skips a write of equal data compares short data with the data field even if the value
  keeps its short data in a cell. `SetValueKey` does what it reports exactly when the data was not mistaken that way.
* `DeepCopy`: a copy that fails frees the key it was working on, but not its values and the subkeys copied before.
  `DeepCopyKey` says what is left behind for any answers to its requests for room, and `SafeExactly` for which trees
  nothing ever is; `ValueIsLeft` is a copy that leaves cells.
* `Rundown`: the race that ExReferenceCallBackBlock asserts not to happen can be reached exactly when more uses, nested
  ones included, can be in progress at once than there are fast references (`RaceExactly`).
* `BootOrderSpec`: a pass moves the drivers of a group to the front one by one, so it reverses them; only the tag sort
  puts them in order. If a group is listed twice its first position counts.

## Reading guide

A class invariant is called `Valid`; history variables that only the proofs use are marked as such. The cache's global
variables and lists are one record, `cc`, that the methods of `CacheManager` reassign. What the outside
world decides is arbitrary in the model: whether memory or log space is there, whether a write succeeds, which files
can be locked, what CcCanIWrite sees at each moment, in which order threads run. Where a model needs an answer to
stay fixed, its comment says so. Numbers are unbounded except where the source's width matters: the 64K limit of KCB
references and the 32-bit total of deferred writes are modelled.

## Model

| member | source | states |
|---|---|---|
| `Cache.CacheManager.FindStripe` | ntoskrnl/cc/view.c:446-489 | the search with its early exit finds a stripe that covers the offset exactly when a scan of all stripes would |
| `Cache.CacheManager.FindSlot` | ntoskrnl/cc/view.c:850-890 | an existing stripe, or the one place that keeps the file's list strictly sorted |
| `Cache.CacheManager.LookupVacb` | ntoskrnl/cc/view.c:446-489 | takes one reference on the stripe it returns and changes nothing else; the invariant is kept |
| `Cache.CacheManager.CreateVacb` | ntoskrnl/cc/view.c:771-928 | fails exactly beyond the section; otherwise a held stripe at the rounded-down offset, possibly after pruning, and no byte of any file changes |
| `Cache.CacheManager.GetVacb` | ntoskrnl/cc/view.c:930-986 | a held stripe that covers the offset; stripes in use stay |
| `Cache.CacheManager.ReleaseVacb` | ntoskrnl/cc/view.c:410-444 | sets the flags, marks dirty at most once, gives the caller's reference back; the asserted positive count always holds |
| `Cache.CacheManager.FreeUnusedVacb` | ntoskrnl/cc/view.c:689-769 | frees exactly the stripes that are unheld, clean and unmapped, and returns how many; each had one reference left |
| `Cache.CacheManager.ReadVirtualAddress` | ntoskrnl/cc/copy.c:79-146 | on success the stripe holds what the medium holds, zeroes behind the end; a failed read may leave anything in it |
| `Cache.CacheManager.RequestStripe` | ntoskrnl/cc/copy.c:345-363 | the stripe is ready: it holds the file's bytes, or is about to be overwritten entirely so that the read was rightly skipped |
| `Cache.CacheManager.StoreAndRelease` | ntoskrnl/cc/copy.c:364-366 | storing into a stripe and releasing it dirty changes the file by exactly these bytes |
| `Cache.CacheManager.LoadAndRelease` | ntoskrnl/cc/copy.c:364-366 | the bytes read are the file's bytes |
| `Cache.CacheManager.CopyStripe` | ntoskrnl/cc/copy.c:345-377 | one stripe's part of a copy, as on a plain byte array |
| `Cache.CacheManager.DataAvailable` | ntoskrnl/cc/copy.c:275-302 | the search with its early exit finds an invalid stripe that meets the range exactly when there is one |
| `Cache.CacheManager.CopyData` | ntoskrnl/cc/copy.c:248-401 | reads return the file's bytes, writes and zeroes change exactly the bytes they cover, over any number of stripes; it fails only if the medium cannot be read, or, when it must not wait, exactly if an invalid stripe meets the range, and then changes nothing |
| `Cache.CacheManager.PerformReadAhead` | ntoskrnl/cc/copy.c:477-634 | no byte of any file changes, and the invariant is kept |
| `Cache.CacheManager.FlushVacb` | ntoskrnl/cc/view.c:164-180 | after a write that succeeds the stripe is clean and the medium has its bytes; after one that fails it is dirty again and nothing is lost |
| `Cache.CacheManager.FlushDirtyPages` | ntoskrnl/cc/view.c:182-278 | every run of the loop that ends, whichever writes fail: the target is met and exceeded by less than a stripe, or no eligible dirty stripe is left; no byte is lost, and the count is the pages cleaned unless the medium is write-protected |
| `Cache.CacheManager.TrimPass` | ntoskrnl/cc/view.c:309-371 | frees every stripe with fewer than two references; counts the pages freed, but no more than the target |
| `Cache.CacheManager.TrimCache` | ntoskrnl/cc/view.c:280-408 | never reports more than its target, leaves no unused stripe behind, frees none that is held or mapped, whichever writes fail |
| `Cache.CacheManager.UnmapVacb` | ntoskrnl/cc/view.c:591-620 | finds the stripe exactly when there is one, and lowers its mapped count by one; the mapping's reference goes with the last mapping |
| `CacheData.FillForgets` | ntoskrnl/cc/view.c:425-430 | a stripe marked dirty before it was read ends up the same after the next fill, whatever was stored in it |
| `CacheData.UnreadFlush` | ntoskrnl/cc/view.c:425-430 | and a flush before that leaves the medium as it is if and only if the stripe happens to hold what the medium holds |
| `Cache.CacheManager.FlushCache` | ntoskrnl/cc/view.c:1081-1150 | from any offset: exactly the stripes of the whole stripe lengths from the start of the first one are written back, those whose write fails stay dirty, and the medium is written nowhere else |
| `CacheData.FlushReaches` | ntoskrnl/cc/view.c:1106-1141 | after writes that succeed no stripe that meets the range is dirty if and only if the one stripe the loop does not come to was clean |
| `Cache.CacheManager.FlushOverlooks` | ntoskrnl/cc/view.c:1121-1140 | flushing the last byte before a dirty stripe and its first byte leaves the stripe dirty |
| `Cache.CacheManager.DeleteFileCache` | ntoskrnl/cc/view.c:1152-1262 | no stripe of the file is left, other files are untouched, and the medium holds the file; when the writes succeed no byte is lost if and only if every dirty stripe at or behind the file's size holds what the medium holds |
| `CacheData.FlushSavesExactly` | ntoskrnl/cc/view.c:1111-1114 | a flush up to the file's size brings all of the file to the medium if and only if that is so |
| `CacheData.BytesBeyondCanBeUnsaved` | ntoskrnl/cc/view.c:1412-1413 | a sound cache in which it is not so |
| `Cache.CacheManager.PurgeCacheSection` | ntoskrnl/cc/fs.c:159-265 | throws away stripes of the range, none in use, and where one was dirty the file falls back to the medium; after success no stripe lies inside the range if and only if none that did reached exactly to its end |
| `CacheData.PurgeExact` | ntoskrnl/cc/fs.c:213-226 | the same for any state before and after |
| `Cache.CacheManager.PurgeSparesLast` | ntoskrnl/cc/fs.c:220-225 | purging exactly the bytes of one stripe reports success and purges nothing |
| `CacheState.MarkKeeps` | ntoskrnl/cc/view.c:491-527 | marking a clean stripe dirty keeps reference counts, the three lists and both page counts |
| `CacheState.UnmarkKeeps` | ntoskrnl/cc/view.c:529-561 | clearing the flag keeps them, and the counts never drop below zero |
| `CacheState.HoldKeeps` | ntoskrnl/cc/view.c:81-99 | taking a reference keeps the count at 1 + dirty + mapped + holders |
| `CacheState.UnholdKeeps` | ntoskrnl/cc/view.c:81-99 | giving one back does too, and never takes the lists' own reference |
| `CacheState.MapKeeps` | ntoskrnl/cc/view.c:432-438 | the first mapping takes a reference, further ones do not |
| `CacheState.UnmapKeeps` | ntoskrnl/cc/view.c:611-615 | the last mapping gives it back, and others remain |
| `CacheState.UnlinkKeeps` | ntoskrnl/cc/view.c:347-366 | a stripe with one reference is clean, unmapped and unheld, and leaves every list |
| `CacheState.LinkKeeps` | ntoskrnl/cc/view.c:850-925 | a new stripe goes where the file's list stays strictly sorted by offset |
| `CacheState.FreeKeeps` | ntoskrnl/cc/view.c:392-403 | the last reference dropped is indeed the last |
| `CacheState.TotalIsSum` | ntoskrnl/cc/view.c:506-508 | the total of dirty pages is the sum of the files' dirty pages |
| `CacheData.Unique` | ntoskrnl/cc/view.c:465-483 | two stripes of a file never cover the same byte |
| `CacheData.WriteBackKeeps` | ntoskrnl/cc/view.c:164-180 | writing a stripe back and clearing its flag leaves the file's bytes as they are |
| `CacheData.StoreKeeps` | ntoskrnl/cc/copy.c:364-366 | storing into a valid stripe, or over a whole one, and marking it dirty is a store into the file |
| `CacheReplay.Serve` | ntoskrnl/cc/copy.c:248-401 | each request is answered as plain byte arrays would answer it |
| `CacheReplay.Replay` | ntoskrnl/cc/copy.c:248-401 | over every sequence of reads, writes, zeroes, read-aheads, flushes, trims and prunes, with any writes failing, all answers and the final files are those of plain byte arrays; no request that may wait fails while the medium can be read |
| `FlushLoop.EndsExactly` | ntoskrnl/cc/view.c:208-271 | with failing writes the flush loop ends if and only if the target is zero, no eligible stripe fails for good, some eligible stripe is write-protected, or the writable stripes meet the target |
| `FlushLoop.CanGoOnForever` | ntoskrnl/cc/view.c:208-271 | one stripe whose write keeps failing keeps the loop going forever |
| `FlushRace.StepKeepsInv` | ntoskrnl/cc/view.c:164-180 | every step of any flusher or copier, and of a CcFlushCache that stores flags it read before, keeps: a loaded byte that differs from the medium is answered for |
| `FlushRace.NoLostUpdate` | ntoskrnl/cc/view.c:410-444 | in every run a valid stripe that differs from the medium is dirty, or has a flusher between clearing and writing, or a copier that has not released it |
| `FlushRace.FilledIsContent` | ntoskrnl/cc/copy.c:353-363 | in every run without danger what a fill reads from the medium is the file |
| `FlushRace.SafeStep` | ntoskrnl/cc/copy.c:345-366 | every step that neither starts from nor leads into danger keeps the valid stripe equal to the file and every difference on the medium answered for; danger is one thread that may yet store FALSE as the valid flag while another writes a byte that differs from the medium |
| `FlushRace.UpdatesReachTheMedium` | ntoskrnl/cc/view.c:529-561 | in every run without danger a valid stripe holds the file, and so does the medium once the stripe is clean and nobody works on it |
| `FlushRaceExact.DangerLoses` | ntoskrnl/cc/view.c:410-431 | from every danger some run that begins no other danger ends with a byte of the file neither in the valid stripe nor on the medium |
| `FlushRaceExact.LossExactly` | ntoskrnl/cc/view.c:410-431 | a step out of a run without danger leads into danger if and only if from there some run that begins no further danger loses a byte |
| `FlushRaceExact.UnreadFillLoses` | ntoskrnl/cc/copy.c:353-363 | without any failed read, a fill that has not come to a byte loses what another thread writes there before it sets the stripe valid |
| `FlushRaceExact.FillCanLoseAWrite` | ntoskrnl/cc/copy.c:353-366 | a run without a failed read in which a fill that overlaps a write loses the byte |
| `FlushRaceExact.StaleValidCanLoseAWrite` | ntoskrnl/cc/view.c:1136-1136 | so does one CcFlushCache that read the valid flag before the only writer set it |
| `FlushRaceExact.FlagStep` | ntoskrnl/cc/view.c:491-545 | without a clash every step finds the dirty flag as it asserts; a clash is a flusher beside another flusher or marker, or two markers of a clean stripe |
| `FlushRaceExact.AssertionsHold` | ntoskrnl/cc/view.c:491-545 | the assertions hold throughout every run without a clash |
| `FlushRaceExact.ClashBreaks` | ntoskrnl/cc/view.c:164-180 | from every clash some run that begins no other clash breaks an assertion |
| `FlushRaceExact.AssertionsExactly` | ntoskrnl/cc/view.c:491-545 | a step out of a run without a clash leads into one if and only if from there some run that begins no further clash breaks an assertion |
| `FlushRaceExact.MarkCanFail` | ntoskrnl/cc/view.c:427-430 | two writers of a new stripe suffice to break the assertion that it is clean |
| `FlushRaceExact.ClearCanFail` | ntoskrnl/cc/view.c:1125-1128 | two flushers of a dirty stripe suffice to break the assertion that it is dirty |
| `LazyWriter.StepKeepsInv` | ntoskrnl/cc/lazywrite.c:234-310 | posting an item, a pass through the worker's locked section and the end of an item keep the pool's invariant |
| `LazyWriter.SetDoneIsBarrier` | ntoskrnl/cc/lazywrite.c:266-295 | a worker that dequeues SetDone is the only active one, and every item posted before it to either queue has finished |
| `LazyWriter.NeverStranded` | ntoskrnl/cc/lazywrite.c:52-91 | in every run a non-empty queue has an active worker, and a set throttle has a SetDone in the regular queue or a worker about to drop it |
| `LazyWriter.WorkersConserved` | ntoskrnl/cc/lazywrite.c:306-309 | idle workers and the active count always make up all workers |
| `LazyWriter.IdleMeansAllDone` | ntoskrnl/cc/lazywrite.c:248-255 | when no worker is active everything ever posted has finished |
| `DeferredWrites.LessCanBeWritten` | ntoskrnl/cc/copy.c:636-743 | if a write may go ahead, a smaller one may at that moment too |
| `DeferredWrites.Queue.Search` | ntoskrnl/cc/copy.c:416-455 | the first write that is allowed, past refused writes that limit their modified pages; the 32-bit total is exact |
| `DeferredWrites.Queue.PostDeferredWrites` | ntoskrnl/cc/copy.c:403-475 | ends whatever CcCanIWrite answers at each time; every release is explained by such a search, and it stops only when a search finds nothing |
| `DeferredWrites.EachOnce` | ntoskrnl/cc/copy.c:403-475 | every write is still queued or was let go exactly once |
| `DeferredWrites.Fair` | ntoskrnl/cc/copy.c:427-453 | a write overtakes only writes that limit their modified pages, and every running total is the unwrapped sum of the bytes let go |
| `DeferredWrites.RetriedFirst` | ntoskrnl/cc/copy.c:895-909 | a write that was queued first again is the next to go, unless it limits its modified pages and is refused |
| `DeferredWrites.DeferredLast` | ntoskrnl/cc/copy.c:895-909 | when a write queued last goes, every earlier one that does not limit its modified pages has gone |
| `BootDriverList.DriverList.MoveToFront` | ntoskrnl/config/cmboot.c:545-547 | relinks one node to the front of the circular list, all others keep their order |
| `BootDriverList.DriverList.FindPlace` | ntoskrnl/config/cmboot.c:649-657 | the place the backward search stops at, one too early where a smaller tag stopped it |
| `BootDriverList.DriverList.OrderStep` | ntoskrnl/config/cmboot.c:622-665 | one turn keeps the part up to the current node sorted and lowers (inversions, first descent, distance) |
| `BootDriverList.DriverList.OrderGroup` | ntoskrnl/config/cmboot.c:608-669 | ends; the range is a permutation of itself sorted by tag, the rest of the list is untouched |
| `Inversions.MoveStep` | ntoskrnl/config/cmboot.c:646-663 | inserting one place too early still removes inversions, or leaves them and brings the first descent closer |
| `BootOrder.FindGroup` | ntoskrnl/config/cmboot.c:517-521 | the start and end of the name that ends at a terminator |
| `BootOrder.MoveGroupToFront` | ntoskrnl/config/cmboot.c:529-549 | all drivers of the group come first, in reverse order, the others keep theirs |
| `BootOrder.DoSort` | ntoskrnl/config/cmboot.c:502-557 | one move-to-front pass for each name of the backward scan |
| `BootOrderSpec.ScanVisitsNamesInReverse` | ntoskrnl/config/cmboot.c:513-527 | on a well-formed multi-string the backward scan visits exactly the names, in reverse |
| `BootOrderSpec.PassesByGroup` | ntoskrnl/config/cmboot.c:529-553 | the passes order the drivers by the first position of their group in the list, unlisted groups last |
| `BootOrderSpec.UnlistedKeepOrder` | ntoskrnl/config/cmboot.c:541-548 | drivers of unlisted groups keep their order |
| `BootOrder.ResolveDriverDependencies` | ntoskrnl/config/cmboot.c:671-719 | every maximal run of one group is sorted by tag, group by group, and the list is permuted only within runs |
| `BootOrder.OrderBootDrivers` | ntoskrnl/config/cmsysini.c:1889-1893 | both sorts in a row, for any buffer of group names: a permutation of the drivers, ordered by (first position of the group among the names in the buffer, tag), every equal-group run sorted by tag |
| `BootOrder.OrderByNames` | ntoskrnl/config/cmsysini.c:1889-1893 | for a well-formed multi-string these are the names it is made of |
| `IrpQueue.RemoveMember` | media/doc/irp cancel boilerplate.c:20-22 | unlinking a member takes exactly it out of the queue |
| `IrpQueue.RemoveSelfLinkedKeepsList` | media/doc/irp cancel boilerplate.c:77-83 | unlinking an entry that points to itself changes nothing |
| `IrpCancel.StepKeepsInv` | media/doc/irp cancel boilerplate.c:10-103 | every atomic action of every queuing, dequeuing and cancelling thread keeps the invariant |
| `IrpCancel.OneOwner` | media/doc/irp cancel boilerplate.c:38-54 | an IRP's cancel routine is set, or exactly one thread is bound to complete it, or it is completed |
| `IrpCancel.CompletedExactlyOnce` | media/doc/irp cancel boilerplate.c:10-103 | in every interleaving no IRP is completed twice |
| `IrpCancel.NoneLost` | media/doc/irp cancel boilerplate.c:10-103 | when all threads are done, every IRP is completed or still queued with its routine set |
| `IrpCancel.CancelDisturbsNoOther` | media/doc/irp cancel boilerplate.c:18-22 | the canceller's unlinking leaves every other queued IRP in place |
| `KcbCache.KcbManager.RemoveKeyHash` | ntoskrnl/config/cmkcbncb.c:76-105 | takes exactly this KCB out of its chain; the walk ends at it |
| `KcbCache.KcbManager.InsertKeyHash` | ntoskrnl/config/cmkcbncb.c:107-144 | the KCB with this key if there is one, otherwise the new one becomes first of its chain |
| `KcbCache.KcbManager.Reference` | ntoskrnl/config/cmkcbncb.c:355-427 | fails exactly at the 64K limit; otherwise one more reference, and a KCB on the delayed-close list leaves it |
| `KcbCache.KcbManager.AwaitExclusive` | ntoskrnl/config/cmkcbncb.c:362-378 | while a thread waits for the lock the KCB cannot be freed |
| `KcbCache.KcbManager.ReferenceAwaited` | ntoskrnl/config/cmkcbncb.c:380-426 | whatever happened during the wait, the thread ends up with one reference and the KCB off the list; the assertion on the index holds |
| `KcbCache.KcbManager.CleanUp` | ntoskrnl/config/cmkcbncb.c:474-513 | only a KCB nobody refers to is freed, and only references that were there remain; the recursion ends since the level falls |
| `KcbCache.KcbManager.DereferenceWithLock` | ntoskrnl/config/cmkcbncb.c:604-637 | gives one reference back and no other; the KCB is freed if and only if it was the last and closes are not delayed |
| `KcbCache.KcbManager.Dereference` | ntoskrnl/config/cmkcbncb.c:569-602 | the same without the lock unless the reference may be the last |
| `KcbCache.KcbManager.Create` | ntoskrnl/config/cmkcbncb.c:653-893 | the KCB of this key, one only, with one more reference for the caller and one on the parent when new; it fails exactly when references or levels run out, and leaves the tree and the table as they were |
| `KcbCache.OpenAndClose` | ntoskrnl/config/cmkcbncb.c:569-893 | opening a key and closing it again leaves all references of others as they were and frees nothing in use |
| `KcbCache.KcbManager.MarkDeleted` | ntoskrnl/config/cmapi.c:1907-1909 | a deleted KCB is found by no search |
| `KcbCache.KcbManager.AddToDelayedClose` | ntoskrnl/config/cmdelay.c:348-421 | an unreferenced KCB is on the list once; a worker is scheduled when there are too many |
| `KcbCache.KcbManager.RemoveFromDelayedClose` | ntoskrnl/config/cmdelay.c:423-474 | off the list, and the element count follows |
| `KcbCache.KcbManager.DelayDeref` | ntoskrnl/config/cmdelay.c:284-331 | a reference that may be the last, or whose exchange is lost, is queued, and a worker is scheduled; no other reference changes |
| `KcbCache.KcbManager.DelayDerefWorker` | ntoskrnl/config/cmdelay.c:223-263 | ends with an empty queue although freeing KCBs queues more; only what nobody refers to is freed |
| `KcbCache.KcbManager.CloseOldest` | ntoskrnl/config/cmdelay.c:126-161 | the KCB closed longest ago is freed if it has no reference, and otherwise becomes the newest |
| `KcbCache.KcbManager.DelayCloseWorker` | ntoskrnl/config/cmdelay.c:53-186 | it looks at the 512 oldest delayed closes, each once, and frees as many as are over the limit and unreferenced among them; it stays scheduled exactly while there are too many |
| `KcbState.ReferenceKeeps` | ntoskrnl/config/cmkcbncb.c:399-422 | a reference keeps: count = children + holders + waiting threads + queued dereferences, and zero exactly on the list |
| `KcbState.DereferenceKeeps` | ntoskrnl/config/cmkcbncb.c:617-620 | so does a dereference, up to the closing of a KCB that lost its last one |
| `KcbState.FreeKeeps` | ntoskrnl/config/cmkcbncb.c:495-512 | freeing an unreferenced KCB keeps every parent live and every count right |
| `KcbState.LinkKeeps` | ntoskrnl/config/cmkcbncb.c:797-823 | so does a new KCB below its parent, one level deeper and below 512 |
| `KcbState.UnreferencedIffDelayed` | ntoskrnl/config/cmdelay.c:348-421 | a KCB is on the delayed-close list, once, if and only if it has no reference or its close index is 1; so the list is just the unreferenced KCBs if and only if no index is 1, which takes a waiting thread |
| `KcbState.PathToRoot` | ntoskrnl/config/cmkcbncb.c:797-823 | the ancestors of a live KCB are all live, as many as its level says, so none is freed before a descendant |
| `KcbTable.TableWith` | ntoskrnl/config/cmkcbncb.c:139-143 | a new key leaves the chains sound and the keys unique |
| `Slab.Allocator.Allocate` | ntoskrnl/config/cmalloc.c:109-192 | an entry nobody has, the first free one if there is any; it fails only without memory; no wholly free page stays |
| `Slab.Allocator.AddPage` | ntoskrnl/config/cmalloc.c:154-177 | all entries of a new page are free, once each |
| `Slab.Allocator.Free` | ntoskrnl/config/cmalloc.c:51-107 | the entry is free once; if it was the last in use on its page, exactly that page's entries leave the list with the page |
| `Slab.Allocator.DropPage` | ntoskrnl/config/cmalloc.c:284-298 | the loop takes exactly the page's entries off the list |
| `Slab.TakeKeeps` | ntoskrnl/config/cmalloc.c:207-230 | each page's free count stays the number of its entries on the free list |
| `Slab.GiveKeeps` | ntoskrnl/config/cmalloc.c:276-284 | likewise when an entry comes back, and the asserted bound on the count holds |
| `ValueStore.Key.FindName` | sdk/lib/cmlib/cmname.c:147-253 | the position of the name, or that there is none; either way what the name stands for |
| `ValueStore.Key.CompareNewValue` | ntoskrnl/config/cmvalche.c:674-812 | on the value of that name, if there is one, it says what SaysEqual says: short data is compared with the data field wherever the data is |
| `ValueState.TakenExactly` | ntoskrnl/config/cmvalche.c:745-795 | what is taken for equal is what the name stands for if and only if it was not mistaken: equal to the index of the cell in which the value keeps other short data |
| `ValueState.SaysEqualExactly` | ntoskrnl/config/cmvalche.c:745-795 | on any value the comparison is right for all data if and only if the value has no short data in a cell of its own, or data equal to that cell's index |
| `ValueState.CanBeMistaken` | ntoskrnl/config/cmvalche.c:749-754 | a sound key for which the comparison takes 8 for the stored 1 |
| `ValueStore.Key.SetValueNew` | ntoskrnl/config/cmapi.c:145-267 | appends the value; a failure leaves no cell behind |
| `ValueStore.Key.SetValueExisting` | ntoskrnl/config/cmapi.c:269-372 | rewrites the value across all four changes between short and longer data, losing and sharing no data cell |
| `ValueStore.Key.SetDataNew` | sdk/lib/cmlib/cmvalue.c:284-313 | a cell whose content begins with the data |
| `ValueStore.Key.AddValueToList` | sdk/lib/cmlib/cmvalue.c:205-282 | the list with one cell more, in place or moved; a failure changes nothing |
| `ValueStore.Key.SetValueKey` | ntoskrnl/config/cmapi.c:642-900 | on success the name stands for exactly this type and data and every other name for what it stood for, if and only if the data was not mistaken; the control block's copy matches the node; it fails only for a deleted key or without room, and then changes nothing |
| `ValueStore.Key.SetSkipped` | ntoskrnl/config/cmapi.c:692-707 | at mistaken data the call reports success and changes nothing, and the name does not stand for the data |
| `ValueStore.Key.QueryPartial` | ntoskrnl/config/cmvalche.c:575-659 | the type, the length and as much of the data as there is room for; success exactly when all of it fits |
| `ValueStore.Key.QueryFull` | ntoskrnl/config/cmvalche.c:423-573 | the length of the stored name, then the data at an aligned offset behind it, as much as there is room for; success exactly when the stated size fits |
| `ValueStore.Key.SetThenQuery` | ntoskrnl/config/cmvalche.c:325-670 | a big enough query returns exactly what was set, if and only if the data was not mistaken, and another name still stands for what it did |
| `ValueState.RewriteKeeps` | ntoskrnl/config/cmapi.c:304-366 | rewriting one entry keeps the live cells exactly those the values own |
| `ValueState.AppendKeeps` | ntoskrnl/config/cmapi.c:245-266 | so does appending one |
| `DeepCopy.Hive.CopyCell` | sdk/lib/cmlib/cmvalue.c:371-408 | a new cell with the same content, exactly if there is room |
| `DeepCopy.Hive.CopyValue` | sdk/lib/cmlib/cmvalue.c:412-514 | fails exactly if one of its requests is refused, and then leaves the hive as it was; otherwise a value of the same meaning in new cells, short data inside it |
| `DeepCopy.Hive.CopyValueList` | sdk/lib/cmlib/cmvalue.c:516-601 | fails exactly if one of its requests is refused, and then leaves the hive as it was; otherwise the same values in the same order in new cells |
| `DeepCopy.Hive.RevertValues` | sdk/lib/cmlib/cmvalue.c:573-594 | freeing the copied values one by one and then the list leaves exactly the cells there were before |
| `DeepCopy.Hive.CopyKey` | ntoskrnl/config/cmapi.c:2404-2486 | fails exactly if one of its requests is refused, and then leaves the hive as it was; otherwise the key itself with its class, security data and values; root flags only without a parent |
| `DeepCopy.Hive.AddSubKey` | ntoskrnl/config/cmapi.c:2511-2521 | one subkey more, somewhere in the list of its storage, exactly if there is room |
| `DeepCopy.Hive.DeepCopyKey` | ntoskrnl/config/cmapi.c:2377-2551 | succeeds exactly if there is room for all its requests: the new tree denotes the same key tree, in new cells only, with parent links and root flags right; no old cell changes, also when source and destination are one hive, and also on failure; after a failure cells are left behind exactly if LeavesCells holds of the answers and the source tree before the call |
| `CopyCost.SafeExactly` | ntoskrnl/config/cmapi.c:2533-2546 | no answers to the requests make the copy leave cells behind if and only if the source key has no subkey, or no values and one subkey of a single cell |
| `CopyCost.UnsafeRequest` | ntoskrnl/config/cmapi.c:2511-2521 | every other tree has a request whose refusal leaves cells behind: room for its first or its second subkey |
| `DeepCopy.CopyLeavesCells` | ntoskrnl/config/cmapi.c:2533-2546 | refusing one request that is not clean makes the copy into a new hive fail and leave cells there |
| `DeepCopy.ValueIsLeft` | ntoskrnl/config/cmapi.c:2533-2546 | a key with one value and one subkey for which this happens |
| `HiveCells.TreeFrame` | ntoskrnl/config/cmapi.c:2491-2522 | a tree outside the cells that change keeps its meaning |
| `Rundown.StepKeepsInv` | ntoskrnl/ex/callback.c:107-232 | every interlocked step of acquire, refill, failed refill, release and swap keeps every block's account |
| `Rundown.ReferenceKeeps` | ntoskrnl/include/internal/ex.h:569-595 | taking a fast reference, and taking seven more with the last one, keeps it |
| `Rundown.InsertKeeps` | ntoskrnl/include/internal/ex.h:598-634 | putting them into the slot, or failing to, keeps it |
| `Rundown.ReleaseKeeps` | ntoskrnl/include/internal/ex.h:637-670 | giving a reference back to the slot or to the count keeps it |
| `Rundown.SwapKeeps` | ntoskrnl/include/internal/ex.h:699-735 | swapping the block in the slot, or failing to, keeps it |
| `Rundown.CountConserved` | ntoskrnl/ex/callback.c:107-232 | in every run the run-down count is the outstanding references, those in flight, and the fast count and one while in the slot |
| `Rundown.CountBetweenOperations` | ntoskrnl/ex/callback.c:107-232 | with no operation under way it is just holders plus (fast count + 1 while in the slot) |
| `Rundown.NoHolderAtZero` | ntoskrnl/ex/rundown.c:257-303 | at zero nobody holds the block and it is not in the slot |
| `Rundown.SafeToFree` | ntoskrnl/ex/callback.c:83-89 | once the wait for the run-down is over nobody ever uses the block again |
| `Rundown.RaceExactly` | ntoskrnl/ex/callback.c:136-142 | some run finds a block in the slot without a fast reference, the race that is asserted not to happen, if and only if more uses can be in progress at once than there are fast references; a nested use counts as one more |
| `CallbackList.StepKeepsInv` | ntoskrnl/ex/callback.c:465-529 | every locked section of notifiers, registrations and unregistrations keeps the invariant |
| `CallbackList.RemoveKeeps` | ntoskrnl/ex/callback.c:634-686 | a registration is unlinked and freed only when no call of it is in flight |
| `CallbackList.AdvanceKeeps` | ntoskrnl/ex/callback.c:484-524 | going on from the registration just called skips nothing that is linked and not pending |
| `CallbackList.CursorIsSafe` | ntoskrnl/config/cmhook.c:58-101 | in every run a notifier's cursor is linked and not freed while the lock is dropped, and Busy is the number of calls in flight |
| `CallbackList.NoNewCall` | ntoskrnl/config/cmhook.c:149-198 | no call starts once the registration is pending or freed |
| `CallbackList.EveryoneCalledOnce` | ntoskrnl/ex/callback.c:484-524 | a pass that reaches the end calls every registration that stayed linked and not pending exactly once, in list order |

## Left out

- The failed-mapping exit of CcRosCreateVacb: mapping succeeds, at once or after one prune.
- The pinning interface, changes of file size, writes beyond the section, and user buffers that fault.
- Paging out mapped stripes in CcRosTrimCache, which changes no cache state.
- Removal of the shared cache map itself in CcRosDeleteFileCache; the model keeps the file with an empty list.
- Cache.CacheManager.DeleteFileCache: nobody holds a stripe of the file; the source only reports the leak otherwise.
- Cache.CacheManager.PerformReadAhead: does not promise that the stripes are still cached at the end, because creating a later one may prune an earlier one.
- Cache.CacheManager.FlushDirtyPages: runs that do not end are the subject of FlushLoop; the files that can be locked stay the same during a call.
- Cache.CacheManager.UnmapVacb: a stripe that is marked dirty when it is unmapped is valid; the source lets a stripe that was never read be marked dirty, which no invariant of the cache survives. FillForgets and UnreadFlush say what then becomes of the bytes.
- Cache.CacheManager.ReleaseVacb: likewise, a stripe released dirty is released valid.
- FlushRace: a read of the medium that fails transfers a part of the bytes but no others; eviction of the stripe is excluded by the references the threads hold.
- The lazy writer's scan and its timers, and liveness of event waits: only safety is proved.
- The waiting loop of CcCanIWrite and the allocation failure in CcDeferWrite.
- CmpDoSort's read of the character before the buffer: the model tests for the start of the buffer first.
- IrpCancel: a dequeuer that finds the queue empty gives up, a case the boilerplate leaves to its caller.
- Fake KCBs, symbolic links, the value cache (asserted unsupported), name control blocks, subkey hints, and the computation of the hash of a path.
- Allocation failures of delay items and of name blocks.
- KcbCache.KcbManager.AwaitExclusive: fewer than 64K threads wait at once, which the source takes for granted.
- ValueStore.Key.SetValueKey: data over 0x3FD8 bytes, which the source asserts to be unsupported.
- ValueStore.Key.QueryFull: buffers of 2 GB or more, whose length the source compares as a signed number.
- Write times, notifications, dirty marks of cells, the basic information class, and the bytes of compressed names.
- DeepCopy.Hive.DeepCopyKey: last-write times and the maxima of the node are not part of a tree's meaning; a subkey list that could not be extended is as it was.
- Where CmpAddSubKey puts a subkey: anywhere in its list, since the meaning does not depend on it.
- The structure of security cells beyond their bytes.
- Rundown: the push lock that the swap waits on, which only delays the release.
- CallbackList: one unregistration per registration, as the callers must keep to it.
- `ntoskrnl/cache`, hive files, hardware configuration, system call wrappers, and the rest of the tree.
