# Shared-state bookkeeping of wgpu, modelled and proved in Dafny

This project models the algorithmic core of `wgpu-core`, with a few exact computations of `naga`, `wgpu-types` and
`deno_webgpu`, and proves properties of the models. Check it with `dafny verify dfyconfig.toml`.

## What is modelled

Concurrent code is a transition system: a `State`, an `Action` datatype whose cases are the source's atomic regions
(one critical section of a lock, one transition of a once-cell, one change of a reference count), `Enabled`, `Apply`, and `Run` over a
sequence of actions. The theorems quantify over all such sequences, so over every interleaving of any number of threads.
Sequential objects are classes whose methods are proved against functions on their abstract value; the
theorems are about those functions and their runs.

| file | models |
|---|---|
| `Pool.dfy` | the deduplicating `ResourcePool`: calls racing with each other, with failing constructors, and with the resource's own drop |
| `RawIds.dfy` | packed ids, as words and as numbers |
| `Identity.dfy` | the free-list allocator `IdentityValues`, and its histories |
| `Storage.dfy` | the id-indexed table |
| `Registry.dfy` | the two-lock registry on top of both |
| `Snatch.dfy` | the snatch lock, `Snatchable`, and the guards that forget a read guard and unlock by force, with and without the lock trace |
| `Present.dfy` | the acquired-texture slot of a surface, each call as its locked regions |
| `WeakVec.dfy` | the compacting vector of weak references, with targets that die during the scan |
| `PipelineCache.dfy` | the pipeline cache header: writer, reader, validator |
| `ErrorScopes.dfy` | Deno's device error handler (section 22.3, Error Scopes, of the W3C WebGPU specification) |
| `BindingCounts.dfy` | per-stage binding counters, their merging and validation |
| `LimitBuckets.dfy`, `BucketTable.dfy` | limit bucketing for every list of buckets, and the list of ten that wgpu has |
| `Utf8.dfy`, `ControlChars.dfy` | UTF-8 (RFC 3629, section 3) and the in-place replacement of control characters |
| `Positions.dfy` | spans, line and column in bytes, and the UTF-16 positions given to JavaScript |
| `Alignment.dfy` | gcd, lcm, and rounding up in 32 bits |

## Where the code differs from its comments

- The pool's comment on an occupied entry (wgpu-core/src/pool.rs:42-48) knows live and dying resources only; a failed constructor
  also leaves an empty cell there (`FailureLeavesAnEmptyCell`). The model and its invariant cover it.
- The counters of dynamic buffers do not saturate like the others (wgpu-core/src/binding_model.rs:430-431); the model wraps
  them at 2^32, as a release build does, and `DynamicCountsAreTrueIffTheyFit` says when that matters. Binding numbers are unique and
  below `max_bindings_per_bind_group` (wgpu-core/src/device/resource.rs:2583), and there are at most eight groups (wgpu-hal/src/lib.rs:325), so callers reach that wrap-around only where that limit is 2^29 or more.
- `present` and `discard` report `AlreadyAcquired` for an empty slot (wgpu-core/src/present.rs:290-293).
- A reconfiguration takes the presentation away and puts an empty one back in two separate regions
  (wgpu-core/src/device/resource.rs:5153-5157 and 5185-5190). A `get_current_texture` that finishes in between panics at
  wgpu-core/src/present.rs:222, even if the reconfiguration succeeds (`FinishInsideReconfigurationPanics`). A `present` after the queue was dropped panics at
  wgpu-core/src/present.rs:288 (`PresentWithoutQueuePanics`). `PanicsExactlyWithoutPresentationOrQueue` gives the exact condition.
- All textures are to be destroyed before a surface is configured again (wgpu-core/src/device/resource.rs:5152), yet of two
  overlapping reconfigurations the second drops the texture that was put into the slot in between
  (`OverlappingReconfigurationsDropTheSlot`). `CanDropIffOverlapped` gives the exact condition on the state, and without overlap it
  never happens (`WithoutOverlapNothingIsDropped`).
- The recursion check of the snatch lock is kept per thread (wgpu-core/src/snatch.rs:112), while a resource guard may be sent to
  another thread and dropped there (wgpu-core/src/as_hal.rs:144-148): the thread that made it is then refused without
  cause (`MovedGuardLeavesItsTrace`). `TraceIsExactIffUndisturbed` gives the exact condition.
- Fresh, never-before-seen ids, distinct indices and the high-water mark are promised without qualification
  (wgpu-core/src/identity.rs:19-37). Each holds under an exact condition on the allocator's fields before the call:
  `IdsAreFreshIffNeverRepeats`, `IndicesAreDistinctIffNeverExhausted` and `EpochsAndMarkAreTrueIffNeverWraps`. All are met by
  2^32 - 1 allocations in any case (`FewAllocationsNeverWrap`). `TheNextAllocationWraps` and `TheNextAllocationRepeats` are
  histories that fail them: with one id outstanding at a time the 2^32nd allocation makes the id that `zip` refuses, and the epochs of
  any other index come round and repeat an id. Where `zip` panics (`ZipRefusesIff`) the model goes on with
  an id that its caller never saw; the source has counted it too.
- The bucket `n1` is meant for many GeForce cards (wgpu-core/src/limits.rs:421), but whatever satisfies it satisfies `i1`, which is
  tried before it (wgpu-core/src/limits.rs:263-264): `n1` is never applied (`EveryBucketButN1IsApplied`).

## Model

| member | source | states |
|---|---|---|
| ResourcePool.StepKeepsInv | wgpu-core/src/pool.rs:38-103 | Every atomic region keeps the invariant: exactly the cells that are uninitialised, being initialised, or hold a resource not yet removed are linked in the map; at most one initialiser runs per cell |
| ResourcePool.AtMostOneLivePerKey | wgpu-core/src/pool.rs:27-28 | In every interleaving each key has at most one live resource at any time, including one that is built but not yet published |
| ResourcePool.ResultsAreShared | wgpu-core/src/pool.rs:24-35 | Calls that returned `Ok` for one key and whose results are both alive returned the same resource, one of that key |
| ResourcePool.HandlesAreAccountedFor | wgpu-core/src/pool.rs:63-79 | Conservation of strong references in every interleaving: a resource has one for each call that has returned it and for each clone, less one for each drop |
| ResourcePool.HandedOutIsLive | wgpu-core/src/pool.rs:75-79 | A resource handed out and cloned more often than dropped is alive, not removed, and cannot be removed |
| ResourcePool.ErrsIffItsConstructorFailed | wgpu-core/src/pool.rs:63-68 | A call returns an error if and only if its own constructor failed |
| ResourcePool.NobodyGetsStuck | wgpu-core/src/pool.rs:38-103 | In every reachable state a call that has not returned can go on, except at a cell that another call initialises; a dead resource can be removed exactly once |
| ResourcePool.RemoveUnlinksOnlyItsOwnCell | wgpu-core/src/pool.rs:92-103 | `remove` unlinks the cell of the dead resource that called it and no other: never an empty cell, one being initialised, or one with a live resource |
| ResourcePool.UnwrapsSucceedAndConstructorRunsOnce | wgpu-core/src/pool.rs:33-68 | No `unwrap` on the consumed options ever fails, on any trip; no call starts its constructor twice; an error means it ran once |
| ResourcePool.FailureLeavesAnEmptyCell | wgpu-core/src/pool.rs:63-68 | A failed constructor leaves an empty cell linked in the map |
| ResourcePool.ReturnsWithinTwoTrips | wgpu-core/src/pool.rs:38-89 | From any reachable state, wherever a call stands, if nothing obstructs its key it returns when running alone, entering the map at most once more |
| ResourcePool.ReturnsAloneIffUnobstructed | wgpu-core/src/pool.rs:75-88 | A call about to enter the map returns when running alone if and only if no removal for its key is pending and no other call initialises its cell |
| ResourcePool.SpinsWhileRemovalPending | wgpu-core/src/pool.rs:81-88 | While a removal for its key is pending, a call running alone never returns |
| RawIds.ZipUnzip | wgpu-core/src/id.rs:48-56 | `zip` and `unzip` are mutually inverse on all words, and `zip` yields the refused zero for the two zeros only |
| RawIds.ZipIsArithmetic | wgpu-core/src/id.rs:48-51 | In 64-bit words, shift and `or` are multiplication and sum |
| RawIds.ZipIsPack | wgpu-core/src/id.rs:48-51 | The word that `zip` makes of any two words, read bit by bit, stands for the packed number of the numbers they stand for |
| RawIds.ZipOfId | wgpu-core/src/id.rs:44-51 | Every id has its two words; `zip` makes of them the word of its packed number, and zero, which it refuses, of index 0 and epoch 0 only |
| RawIds.UnpackPack | wgpu-core/src/id.rs:48-56 | The packed number determines the id, and is not zero for an epoch of at least 1 |
| Identity.IdentityValues.Alloc | wgpu-core/src/identity.rs:66-83 | The allocator's method computes the specification `Allocate`, id and new state |
| Identity.IdentityValues.MarkAsUsed | wgpu-core/src/identity.rs:90-99 | External ids are counted and returned, and switch the mode |
| Identity.IdentityValues.Release | wgpu-core/src/identity.rs:104-110 | Release pushes the id on the free list when ids are allocated here, and uncounts it |
| Identity.ExternalIdsAreCounted | wgpu-core/src/identity.rs:90-110 | Over every history of external ids the count is the number of ids marked and not yet released, no index is taken or kept, and the mode stays external |
| Identity.ReleaseIsAllowed | wgpu-core/src/identity.rs:104-110 | An id can be released exactly while it is outstanding: the count never falls short |
| Identity.IndicesAreDistinctIffNeverExhausted | wgpu-core/src/identity.rs:24-26 | The promise of distinct indices, exactly, over histories of any length: no allocation hands out the index of an outstanding id if and only if none is made with an empty free list and `next_index` back at zero; the count is then the number of outstanding ids |
| Identity.CollidesIffExhausted | wgpu-core/src/identity.rs:76-79 | The same for one allocation, as a condition on the fields |
| Identity.IdsAreFreshIffNeverRepeats | wgpu-core/src/identity.rs:21-37 | The promise of never-before-seen ids, exactly, over histories of any length: no id is issued twice if and only if no allocation takes an entry with epoch zero or exhausted indices |
| Identity.SeenBeforeIffRepeats | wgpu-core/src/identity.rs:73-82 | The same for one allocation, as a condition on the fields |
| Identity.EpochsAndMarkAreTrueIffNeverWraps | wgpu-core/src/identity.rs:28-37 | Over histories of any length every issued epoch is at least 1 and `next_index` is the high-water mark if and only if no 32-bit addition wraps |
| Identity.AllocationIsFresh | wgpu-core/src/identity.rs:73-82 | While nothing has wrapped an allocation yields an id never issued before and an index that is not outstanding, one epoch above the last of its index if its addition fits |
| Identity.ZipRefusesIff | wgpu-core/src/id.rs:48-51 | `zip` refuses the id of an allocation if and only if that takes index 0 with its greatest epoch from the free list |
| Identity.OtherwiseWraps | wgpu-core/src/identity.rs:75-78 | If it does not fit, the id has epoch zero, or the allocation after it repeats an id |
| Identity.FewAllocationsNeverWrap | wgpu-core/src/identity.rs:73-82 | No addition wraps during the first 2^32 - 1 allocations |
| Identity.DoKeepsApart | wgpu-core/src/identity.rs:66-110 | Each operation keeps the ids held, by users and on the free list, at distinct indices and the numbers consistent, an allocation if and only if the indices are not exhausted |
| Identity.DoKeepsTracked | wgpu-core/src/identity.rs:66-110 | Each operation that does not repeat keeps: the ids issued for an index have exactly the epochs up to its newest, in increasing order, and the ids held are the newest |
| Identity.IdsAreNeverReused | wgpu-core/src/identity.rs:19-37 | While no addition wraps, and so over any history of up to 2^32 - 1 allocations, no id is issued twice, `zip` refuses none, epochs per index strictly increase from 1, outstanding ids have distinct indices, and the count is `next_index` less the free list |
| Identity.NextIndexIsHighWater | wgpu-core/src/identity.rs:28-33 | `next_index` is the greatest number of ids ever outstanding at once, modulo 2^32 until the indices are exhausted, and exactly while nothing wraps |
| Identity.AllocationsDoNotOverflow | wgpu-core/src/identity.rs:73-82 | Neither 32-bit addition overflows in the first 2^32 - 1 allocations |
| Identity.CycleReaches | wgpu-core/src/identity.rs:73-75 | Allocating and releasing in turn `n` times, with or without another id kept, leaves its index with epoch `n` modulo 2^32 on the free list |
| Identity.TheNextAllocationWraps | wgpu-core/src/identity.rs:75-75 | After such a history of 2^32 - 1 allocations the next one makes the id that `zip` refuses |
| Identity.TheNextAllocationRepeats | wgpu-core/src/identity.rs:75-75 | After one of 2^32 + 1 allocations, with index 0 kept outstanding, the next one repeats an id |
| Storage.Storage.Insert | wgpu-core/src/storage.rs:78-95 | Insertion grows the table, replaces the element, and reports what it found: vacant, another epoch (overwritten in silence) or the same (panic) |
| Storage.Storage.Remove | wgpu-core/src/storage.rs:97-110 | Removal vacates the element before it compares epochs, and returns the value or the panic |
| Storage.Storage.Get | wgpu-core/src/storage.rs:131-143 | Lookup returns the value exactly for a matching epoch |
| Storage.InsertionFinds | wgpu-core/src/storage.rs:84-95 | An insertion panics exactly if its id resolved before, and overwrites in silence exactly if another id of its index did |
| Storage.LookupAfterInsert | wgpu-core/src/storage.rs:78-95 | After an insertion its id resolves to the value, other ids of the index do not resolve, and all others are as before |
| Storage.LookupAfterRemove | wgpu-core/src/storage.rs:97-110 | After a removal no id of the index resolves, all others are as before, and the outcome is that of a lookup |
| Storage.OccupiedIdsAreTheResolvable | wgpu-core/src/storage.rs:112-122 | The ids of the occupied elements are exactly those that resolve |
| Registry.StepKeepsInv | wgpu-core/src/registry.rs:57-94 | Each atomic half of each registry operation keeps allocator, table and the partition of outstanding ids consistent, an allocation if and only if the indices are not exhausted |
| Registry.StepsAreEnabled | wgpu-core/src/registry.rs:57-94 | In every reachable state an id can be prepared, assigned exactly while it is a future, vacated exactly while it is live, and then freed |
| Registry.FreeIndicesAreVacant | wgpu-core/src/registry.rs:37-37 | In every interleaving that never exhausts the indices, epochs wrapped or not, a freed index is vacant, outstanding ids have distinct indices, no insertion meets an occupied element and no removal panics |
| Registry.RegistryRefinesMap | wgpu-core/src/registry.rs:113-117 | On every id whatsoever, lookup agrees with the plain partial map of live ids to values |
| Registry.ResolvesUntilRemoved | wgpu-core/src/registry.rs:57-66 | A registered id resolves to the value assigned to it in every continuation that does not remove it |
| Registry.ResolvesAgainOnlyIfIssuedAgain | wgpu-core/src/registry.rs:86-94 | In every continuation a removed id resolves only if it has been issued again |
| Registry.RemovedNeverResolvesAgain | wgpu-core/src/registry.rs:86-94 | A removed id resolves in no continuation, even after its index is reused, as long as no allocation repeats |
| Registry.FewAllocationsNeverRepeat | wgpu-core/src/registry.rs:69-80 | No run of up to 2^32 allocations exhausts the indices or repeats an id |
| Registry.ReportAccounts | wgpu-core/src/registry.rs:96-110 | In every reachable state the allocated ids exceed the kept values by exactly the unassigned futures and the removals in flight |
| Registry.FreeingFirstLosesAValue | wgpu-core/src/registry.rs:87-91 | With the two halves of `remove` swapped, a value can be overwritten and the removal then panics |
| Registry.Registry.Prepare | wgpu-core/src/registry.rs:69-80 | `prepare(None)` is one allocation |
| Registry.Registry.Assign | wgpu-core/src/registry.rs:61-65 | `assign` is one insertion |
| Registry.Registry.Remove | wgpu-core/src/registry.rs:86-94 | `remove` vacates, then frees; a panic of the table leaves the id allocated |
| Registry.Registry.GenerateReport | wgpu-core/src/registry.rs:96-110 | The counting loop reports the allocator's count, the occupied elements, and the rest as released |
| Snatch.StepKeepsInv | wgpu-core/src/snatch.rs:34-198 | In builds with and without the lock trace every action keeps: the lock's counter is the number of read guards, forgotten ones included; writers exclude all; pins are right; stored values are conserved |
| Snatch.ReadersExcludeWriters | wgpu-core/src/snatch.rs:146-160 | An outstanding write guard is the only outstanding guard, forgotten read guards included |
| Snatch.NothingSnatchedWhileReadGuardOutstanding | wgpu-core/src/snatch.rs:34-42 | No run that leaves a read guard outstanding, even a forgotten one, contains a `snatch` |
| Snatch.PinnedPointerStaysValid | wgpu-core/src/as_hal.rs:80-142 | Until a `SnatchableResourceGuard` is dropped, the cell it points into holds the value it was made from |
| Snatch.ValueLeavesAtMostOnce | wgpu-core/src/snatch.rs:40-50 | A stored value is still in its cell or has left it exactly once, over `snatch` and `take` together, and nothing else leaves |
| Snatch.TakingEmptiesTheCell | wgpu-core/src/snatch.rs:40-50 | `snatch` and `take` empty their cell, let out exactly what it held, and change nothing else |
| Snatch.EmptyStaysEmpty | wgpu-core/src/snatch.rs:34-50 | What has been snatched is seen in no continuation |
| Snatch.EmptiedOnlyExclusively | wgpu-core/src/snatch.rs:39-50 | A value leaves its cell only under the write guard with no read guard outstanding, or when neither a reference nor a pin is left |
| Snatch.LockAdmitsExactly | wgpu-core/src/snatch.rs:146-160 | In every reachable state a reader is let in exactly if no write guard is outstanding, a writer exactly if no guard is, but for threads that the trace refuses |
| Snatch.GuardAfter | wgpu-core/src/as_hal.rs:80-142 | A guard ends by being dropped while it reads or writes, or by force once forgotten; one made into a resource guard pins the value its cell holds; nothing else changes it |
| Snatch.GuardsCanBeGivenUp | wgpu-core/src/snatch.rs:163-187 | In every reachable state a reading or writing guard can be dropped and a forgotten one unlocked on any thread: the reader count never falls short |
| Snatch.TraceIsExactIffUndisturbed | wgpu-core/src/snatch.rs:87-109 | In builds with the trace the check refuses exactly the threads with an outstanding guard, throughout a run, if and only if it never fires and no guard is dropped on another thread than its own; a thread then has at most one guard |
| Snatch.NobodyRefusedWithoutTrace | wgpu-core/src/snatch.rs:116-126 | In builds without the trace no thread is ever refused |
| Snatch.RecursiveReadWithoutTrace | wgpu-core/src/snatch.rs:116-126 | There a thread may hold two read guards |
| Snatch.MovedGuardLeavesItsTrace | wgpu-core/src/as_hal.rs:122-148 | A resource guard dropped on another thread leaves its own thread refused although that holds nothing |
| Snatch.CounterIsZeroIffNoReadGuard | wgpu-core/src/snatch.rs:163-187 | Forgetting and unlocking by force leak nothing: the reader count is zero exactly when no read guard is outstanding |
| Present.EachRawTextureIsInOnePlace | wgpu-core/src/present.rs:155-360 | Conservation over all interleavings: each raw texture handed out by the driver is in exactly one place, on its way to the slot, in one texture, presented or discarded once, or lost once |
| Present.LostExactly | wgpu-core/src/present.rs:214-245 | In every reachable state it is lost exactly by a failed view, by arriving at a missing or full slot, or by destruction of its texture |
| Present.HandedBackAtMostOnce | wgpu-core/src/present.rs:276-360 | Over all interleavings with destruction and with the two regions of a reconfiguration, each raw texture is presented or discarded at most once, and is then nowhere else |
| Present.PanicsExactlyWithoutPresentationOrQueue | wgpu-core/src/present.rs:221-308 | In every reachable state the calls panic if and only if a `get_current_texture` finishes without a presentation or a `present` finds no queue; the first loses its raw texture, the second changes nothing; the `unreachable!()` arms are not reached |
| Present.FinishInsideReconfigurationPanics | wgpu-core/src/device/resource.rs:5153-5190 | A run in which a `get_current_texture` finishes between the two regions of a successful reconfiguration, and panics |
| Present.PresentWithoutQueuePanics | wgpu-core/src/present.rs:287-288 | A run in which `present` panics because the queue is gone, and leaves the texture in the slot |
| Present.CanDropIffOverlapped | wgpu-core/src/device/resource.rs:5153-5190 | The exact condition: a run in which no further reconfiguration begins can overwrite a full slot if and only if two are under way, or one is and the surface has a presentation |
| Present.FullSlotIsOverwrittenOnlyByEndConfigure | wgpu-core/src/device/resource.rs:5185-5190 | A full slot changes other than by `present` or `discard` reaching it, and without the error for it, exactly when a reconfiguration ends successfully |
| Present.WithoutOverlapNothingIsDropped | wgpu-core/src/device/resource.rs:5152-5190 | In every run in which reconfigurations do not overlap, none overwrites a full slot, then or later unless another begins |
| Present.DroppedIsNeverHandedBack | wgpu-core/src/device/resource.rs:5185-5190 | A raw texture that has left the slot is never presented or discarded in any continuation |
| Present.OverlappingReconfigurationsDropTheSlot | wgpu-core/src/device/resource.rs:5185-5190 | A run in which the second of two overlapping reconfigurations overwrites a full slot |
| Present.SlotIsTakenOnce | wgpu-core/src/present.rs:276-360 | A call of `present` or `discard` that does not get as far as the slot changes nothing; one that does empties it and hands back the raw texture exactly if that was not destroyed, whatever the driver answers; success exactly if it did and the driver did not fail |
| Present.PresentPresentsAndDiscardDiscards | wgpu-core/src/present.rs:305-354 | In every reachable state `present` adds the raw texture of the slot to those presented, `discard` to those discarded, and no other action changes either |
| Present.AnswersOfPresentAndDiscard | wgpu-core/src/present.rs:276-360 | In every reachable state each answer of the two calls, errors and the driver's statuses alike, has exactly one reason |
| Present.AnswersOfGetCurrentTexture | wgpu-core/src/present.rs:155-274 | The same for both regions of `get_current_texture`; a texture that arrives is in the slot exactly if that was empty |
| Present.ReconfigurationSteps | wgpu-core/src/device/resource.rs:5153-5190 | The first region leaves no presentation and gives up exactly at a full slot; the second leaves an empty slot exactly if granted; nothing else reconfigures |
| Present.Surface.BeginConfigure | wgpu-core/src/device/resource.rs:5153-5157 | The first region of a reconfiguration takes the presentation and fails if its slot was full |
| Present.Surface.EndConfigure | wgpu-core/src/device/resource.rs:5166-5190 | The second installs an empty slot whatever it finds, unless the driver refused |
| Present.Surface.BeginGetCurrentTexture | wgpu-core/src/present.rs:158-219 | The first region of `get_current_texture`, the driver's answer, and the view, whose failure loses the texture |
| Present.Surface.FinishGetCurrentTexture | wgpu-core/src/present.rs:221-253 | The second region: store the texture in an empty slot, or drop it |
| Present.Surface.TakeTexture | wgpu-core/src/present.rs:290-308 | Taking the slot and snatching its texture, with all error cases |
| Present.Surface.Present | wgpu-core/src/present.rs:276-326 | Configuration, device and queue are checked in this order; `present` hands the raw texture to the queue and reports the driver's answer |
| Present.Surface.Discard | wgpu-core/src/present.rs:328-360 | `discard` hands it back to the surface |
| WeakVec.WeakVec.Push | wgpu-core/src/weak_vec.rs:29-44 | The backward `swap_remove` loop and the capacity policy compute `Pushed`, and scan what it says |
| WeakVec.CompactKeepsSurvivors | wgpu-core/src/weak_vec.rs:32-36 | Despite the reordering, the scan leaves exactly the multiset of elements found alive when probed |
| WeakVec.PushKeepsTheLiving | wgpu-core/src/weak_vec.rs:25-44 | A push keeps what is alive at the end of the scan, drops what was dead when it began, adds the value and makes up nothing |
| WeakVec.ScanAndCapacity | wgpu-core/src/weak_vec.rs:29-44 | A full vector is scanned once from end to end and then has room for twice its survivors; it grows only if it must, and no further unless the allocator gives more; a vector with room is neither scanned nor grown |
| WeakVec.AtMostTwoScansPerPush | wgpu-core/src/weak_vec.rs:38-40 | For any deaths and any allocator, all compactions together scan at most two elements per push |
| PipelineCache.FromToBytes | wgpu-core/src/pipeline_cache.rs:266-302 | Big-endian numbers read back as written |
| PipelineCache.ToFromBytes | wgpu-core/src/pipeline_cache.rs:266-302 | And are written back as read |
| PipelineCache.DecodeEncode | wgpu-core/src/pipeline_cache.rs:176-222 | A written header reads back |
| PipelineCache.EncodeDecode | wgpu-core/src/pipeline_cache.rs:176-222 | Any 64 bytes are the encoding of the header read from them |
| PipelineCache.Reader.ReadArray | wgpu-core/src/pipeline_cache.rs:252-261 | A read consumes a prefix or fails and changes nothing |
| PipelineCache.Read | wgpu-core/src/pipeline_cache.rs:177-206 | The reader consumes exactly 64 bytes, in field order, or fails for fewer; its assertion holds |
| PipelineCache.Writer.WriteArray | wgpu-core/src/pipeline_cache.rs:282-292 | A write fills the next part of the buffer and nothing else, or fails |
| PipelineCache.Write | wgpu-core/src/pipeline_cache.rs:208-221 | The buffer then holds the encoding and is full |
| PipelineCache.AddCacheHeader | wgpu-core/src/pipeline_cache.rs:98-120 | The region holds the canonical header |
| PipelineCache.AcceptsExactlyOwnFiles | wgpu-core/src/pipeline_cache.rs:50-96 | The validator returns `d` if and only if the input is the header written for `d`, this adapter, key and pointer size, followed by `d` |
| PipelineCache.ProperPrefixIsTruncated | wgpu-core/src/pipeline_cache.rs:56-88 | Every proper prefix of a valid file is reported truncated |
| PipelineCache.ProperExtensionIsExtended | wgpu-core/src/pipeline_cache.rs:89-91 | Every proper extension is reported extended |
| PipelineCache.AdapterKeyIsInjective | wgpu-core/src/pipeline_cache.rs:224-238 | Adapter keys tell all adapters apart |
| PipelineCache.ForeignFileIsRejected | wgpu-core/src/pipeline_cache.rs:59-79 | A file of another pointer size, adapter or key is rejected, with the error that says which |
| PipelineCache.FirstDifferenceDecides | wgpu-core/src/pipeline_cache.rs:59-94 | For every header that is not the canonical one the first field in file order that differs decides the error |
| PipelineCache.Layout | wgpu-core/src/pipeline_cache.rs:98-125 | The file byte by byte: magic, version 1, pointer size, Vulkan as 1, adapter key, user key, length, hash space, data |
| ErrorScopes.DeviceErrorHandler.PushError | deno_webgpu/error.rs:76-159 | The method, with its search from the innermost scope, computes the specification |
| ErrorScopes.DeviceErrorHandler.PushErrorScope | deno_webgpu/device.rs:725-732 | Pushes an empty scope, also after loss |
| ErrorScopes.DeviceErrorHandler.PopErrorScope | deno_webgpu/device.rs:736-760 | Pops, or returns null after loss, or fails on an empty stack |
| ErrorScopes.DeviceErrorHandler.Destroy | deno_webgpu/device.rs:140-145 | Reports the loss |
| ErrorScopes.CatchesItsFilter | deno_webgpu/error.rs:101-106 | A validation, out-of-memory or internal error has exactly the filter that catches errors of its kind |
| ErrorScopes.PopReturnsFirstError | deno_webgpu/error.rs:108-117 | For every history before loss, a pop returns the first error reported while that scope was open that is of the kind its filter catches, with no open scope inside it that catches that kind |
| ErrorScopes.UncapturedAreUnclaimed | deno_webgpu/error.rs:118-158 | Over every history the uncaptured-error events are exactly the errors before the first loss that belong to no scope, in order |
| ErrorScopes.LossIsFinal | deno_webgpu/error.rs:81-99 | The lost promise is resolved exactly once, with the first loss's reason; afterwards errors and pops change nothing and pops return null |
| ErrorScopes.ScopesAfterLoss | deno_webgpu/device.rs:725-760 | Over every history, from the first loss on scopes are still pushed and never popped |
| BindingCounts.AddingABindingAddsItsWeight | wgpu-core/src/binding_model.rs:445-512 | Through both levels of cases, a binding adds to every kind exactly its weight, in the stages that see it |
| BindingCounts.BuiltIsCountOf | wgpu-core/src/binding_model.rs:445-512 | Every counter is the true sum of weights, saturated (for dynamic buffers modulo 2^32) |
| BindingCounts.MergingIsBuilding | wgpu-core/src/binding_model.rs:514-530 | Validators merged in any order and grouping equal the validator built from all bindings, on every merged counter |
| BindingCounts.ValidateIsExact | wgpu-core/src/binding_model.rs:532-587 | Validation succeeds exactly if the true totals, up to the counters' width, are within the limits; a failure names a kind, its greatest count and the stages that reach it |
| BindingCounts.FirstExceededIsReported | wgpu-core/src/binding_model.rs:532-587 | Of several limits exceeded the one that the source checks first is reported |
| BindingCounts.DynamicCountsAreTrueIffTheyFit | wgpu-core/src/binding_model.rs:471-484 | The dynamic counters are the true numbers if and only if those are below 2^32; at 2^32 they read zero |
| BindingCounts.DynamicCountsWrap | wgpu-core/src/binding_model.rs:471-484 | A list of 2^32 dynamic buffers, uniform or storage, is counted as none |
| BindingCounts.Counter.Max | wgpu-core/src/binding_model.rs:388-401 | The greatest count and exactly the stages that reach it |
| BindingCounts.BindingTypeMaxCountValidator.AddBinding | wgpu-core/src/binding_model.rs:445-512 | The method computes the specification |
| BindingCounts.BindingTypeMaxCountValidator.Merge | wgpu-core/src/binding_model.rs:514-530 | The method computes the specification |
| BindingCounts.BindingTypeMaxCountValidator.AddAll | wgpu-core/src/device/resource.rs:2810-2813 | The loop builds the validator of a layout's entries |
| LimitBuckets.CheckLimits | wgpu-core/src/limits.rs:61-73 | The failed limits are exactly the two offset alignments that are finer than allowed and the other limits that are higher, and there is none exactly if all are within |
| LimitBuckets.WithinIffCovered | wgpu-types/src/limits.rs:18-90 | To be within means: no alignment finer, no other limit higher |
| LimitBuckets.CompatibleIffHonest | wgpu-core/src/limits.rs:111-154 | A bucket accepts an adapter exactly if showing it in its place promises nothing beyond the hardware, and both or neither are fallback adapters |
| LimitBuckets.ExposesTheBucket | wgpu-core/src/limits.rs:166-193 | What is shown: the limits and features of the bucket, besides those the four exempt features that the adapter has, and subgroup sizes 4 and 128 without subgroups |
| LimitBuckets.RawValuesAreKept | wgpu-core/src/limits.rs:195-204 | Bucketing records the bucket's name and everything that the adapter showed before |
| LimitBuckets.Adapter.TryApply | wgpu-core/src/limits.rs:156-204 | Replaces the adapter's fields and keeps the raw ones if the bucket is compatible, and changes nothing otherwise |
| LimitBuckets.Adapter.ApplyLimitBuckets | wgpu-core/src/limits.rs:215-230 | The loop applies the first compatible bucket |
| LimitBuckets.NeverOverPromises | wgpu-core/src/limits.rs:114-204 | For every list of buckets no exposed alignment is finer, no other exposed limit higher and no exposed feature missing, compared with the raw adapter, whose subgroup sizes are within the exposed range |
| LimitBuckets.ExposesOnlyTheBucket | wgpu-core/src/limits.rs:166-193 | The exposed result depends only on the bucket and the raw exempt features, all of which stay exposed |
| LimitBuckets.BucketingIsIdempotent | wgpu-core/src/limits.rs:215-230 | A second application picks the same bucket and changes nothing exposed |
| LimitBuckets.GivesUpExactlyDownlevelAdapters | wgpu-core/src/limits.rs:207-214 | A list ending in default and fallback buckets, the others at least as good, gives up exactly the adapters below the default limits |
| BucketTable.SpecialBucketsAreUplevel | wgpu-core/src/limits.rs:576-602 | Each of the eight special buckets is a superset of the baseline `UPLEVEL` in limits, features and subgroup sizes |
| BucketTable.TableGivesUpExactlyDownlevelAdapters | wgpu-core/src/limits.rs:207-214 | The ten buckets give up exactly the adapters below the default limits |
| BucketTable.FinelyAlignedGetsDefault | wgpu-core/src/limits.rs:215-230 | An adapter at the baseline whose storage buffers align to 32 bytes, as on Metal (wgpu-hal/src/metal/adapter.rs:1285), gets the default bucket |
| BucketTable.I1ShadowsN1 | wgpu-core/src/limits.rs:404-440 | Every adapter that satisfies `n1` satisfies `i1` |
| BucketTable.EveryBucketButN1IsApplied | wgpu-core/src/limits.rs:252-274 | Of the ten buckets exactly `n1` is applied to no adapter at all |
| Utf8.DecodeEncode | naga/src/error.rs:179-181 | The first character of a string reads back with its width, whatever follows |
| Utf8.Patterns | naga/src/error.rs:169-188 | The bytes of a character follow the bit patterns of RFC 3629, section 3, in the shortest form |
| Utf8.EncodeAllIsInjective | naga/src/error.rs:169-188 | A string encodes one sequence of characters |
| ControlChars.Find | naga/src/error.rs:179-179 | The search finds the first character to replace and its offset, a boundary |
| ControlChars.ReplacedRanges | naga/src/error.rs:179-179 | Replaced are exactly the C0 and C1 controls and DEL, other than tab to carriage return and next line |
| ControlChars.ReplaceControlChars | naga/src/error.rs:169-188 | The in-place loop ends, stays on boundaries, and yields exactly the character-by-character replacement |
| ControlChars.CleaningIsIdempotent | naga/src/error.rs:169-188 | That replacement is idempotent, keeps the number of characters and leaves nothing to replace |
| ControlChars.ReplaceTwice | naga/src/error.rs:169-188 | Rewriting the result changes no byte |
| Positions.TotalSpan | naga/src/span.rs:39-63 | The folding loop yields the smallest span containing all the defined ones |
| Positions.TotalIsUnique | naga/src/span.rs:55-63 | The total does not depend on order or repetition |
| Positions.LocationRecoversOffset | naga/src/span.rs:80-92 | The offset is recovered from line and column |
| Positions.LocationsAreOrdered | naga/src/span.rs:80-92 | Lines and columns order offsets as the text does, so none are shared |
| Positions.LineStartIsBoundary | naga/src/span.rs:83-83 | The line start found in the bytes is a character boundary |
| Positions.UnitsAreOfUtf16 | deno_webgpu/shader.rs:143-163 | Lengths are counted in the units of UTF-16 (RFC 2781, section 2.1), two for a surrogate pair |
| Positions.MessagePositionsAreUtf16 | deno_webgpu/shader.rs:143-163 | Between boundaries, naga's and Deno's line starts agree; the reported offset is the UTF-16 length of all earlier lines plus `line_pos` less one |
| Alignment.GreatestCommonDivisor | wgpu-core/src/lib.rs:214-225 | The loop ends and computes `Gcd` |
| Alignment.GcdIsGreatest | wgpu-core/src/lib.rs:214-225 | Which divides both, and which every common divisor divides |
| Alignment.GetLowestCommonDenom | wgpu-core/src/lib.rs:204-211 | The method orders its arguments and computes `LowestCommonDenom` |
| Alignment.LowestCommonDenomIsLcmIffProductFits | wgpu-core/src/lib.rs:204-211 | For nonzero arguments the result is the least common multiple if and only if the product fits in 32 bits |
| Alignment.AlignToIsLeastIffItFits | wgpu-types/src/math.rs:21-31 | The result is the least multiple not below the value if and only if that multiple fits in 32 bits |
| Alignment.AlignToLcmServesBoth | wgpu-core/src/device/queue.rs:867-872 | Aligning to the least common multiple gives the least value not below the input that is a multiple of both |

## Left out

- GPU and driver calls, surfaces and windows, JavaScript objects, and `unsafe` pointer casts: raw handles are tokens, and the
  driver's answers are parameters of the actions.
- The pool, the registry's locking and the snatch lock are transition systems rather than classes, since their calls interleave; the objects
  behind the registry's locks are classes.
- Lock ranks, backtraces, logging, tracing and messages. The lock trace is kept as the set of traced threads.
- Threads waiting for the snatch lock: taking it and setting the trace are one action. A thread whose trace panics may go on, as
  it can behind `catch_unwind`.
- Removing an id twice, and mixing external with internal ids, which panic by design: excluded by the steps' conditions.
- Allocation of external ids in the registry's protocol: only the allocator's method is modelled.
- PerStageBindingTypeCounter is a value inside the validator's class, as the source embeds it, not a class of its own.
- `validate_binding_arrays` and the text of the errors: a finite case distinction.
- The names of the limits in messages, and the features that no bucket mentions.
- 32-bit truncation of lines, columns and offsets: positions are unbounded numbers, which differ only for sources of 4 GiB and more.
- `Span` indexing, labels and diagnostics output.
- A surface that is configured again for another device: one device per surface is assumed, so a texture of the old device stored in the
  presentation of the new one (wgpu-core/src/present.rs:221-246) is not told apart.
- The recursion panic of the snatch lock inside `present` and `discard` (wgpu-core/src/present.rs:295 and 346, in builds with the lock trace),
  which comes on top of the panics of `PanicsExactlyWithoutPresentationOrQueue`.
- `Surface` descriptors, the suboptimal status, the timing of the driver, and the checks of a configuration before the presentation
  is touched.
- Overflow panics of debug builds in `Alignment`, `BindingCounts` and `Identity`: the release build's wrap-around is modelled.
