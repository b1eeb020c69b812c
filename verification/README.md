# ColdSnap verification

A Dafny model of the parts of ColdSnap that save GPU memory to files and bring it back, with proofs
about them. Device memory is a map from addresses to bytes, a file is a sequence of bytes, and a
checksum is any streaming digest: only the law that feeding two pieces is feeding their
concatenation is used. Where a statement needs a digest without collisions, that is a hypothesis.

| files | subject |
|---|---|
| `Bytes`, `Sorting`, `Tiling` | vocabulary: memory, files, stable sorting, "every byte exactly once" |
| `Partition`, `ResidualSweep`, `Pack`, `Snapshot`, `NativeCapture`, `RoundTrip` | the split native snapshot, from partition to restore |
| `Placement`, `Relocation` | moving a manifest to another address layout |
| `Jobs`, `HydrationPipeline`, `CaptureLayout`, `CapturePipeline`, `Readback`, `DirectSplit` | the native staged transfers |
| `WeightBlob`, `SleepWake` | the weight blob of the disk backend; sleep and wake when any call may fail |
| `GraphMemory`, `CudaEpoch`, `EpochLifecycle`, `MmapRegistry` | driver-backed tables and their failure paths |
| `GraphProtocol` | engine and workers: warmup, graph capture, retry, fallback |

## Reading the model

- A call of the original that raises is `Err`, a `false` result or a `Raised` outcome. Any driver,
  file or worker call may fail. Where a statement depends on which call failed, the failing calls
  are an argument (a function from calls to outcomes, or the one call that ends the attempt).
- Asynchronous reads, writes and copies are an environment that may act between any two steps of
  the pipelines: reads and writes proceed byte by byte in any order, the CUDA stream is a queue.
  An argument `broken` says that some call of a transfer fails; which one is left open.
- Operations that update state are classes and methods with loops; each is proved against a
  function of its inputs or of the old state, and the run properties are lemmas about those
  functions or invariants that every method keeps.
- `hide` statements in proof bodies only keep definitions away from the solver.

## Results about the code that are easy to miss

- A hydration that raises leaves its other reads in flight in a ring that the next call reuses,
  and that call starts its own read of a stage before it waits for the old one. Whatever those
  reads do, memory ends up right exactly if each can only write what the new job of its stage
  reads (`HydrationPipeline.EntryExact`). When the same transfer is tried again, the left read is
  that of some job, and it is harmless exactly if the two jobs start with the same bytes
  (`HydrationPipeline.RetryExact`): always, if no stage was used twice
  (`HydrationPipeline.FewJobsHarmless`), but not if the stage had been refilled
  (`HydrationPipeline.StaleRetry`). Only the first jobs of the retry, one per stage, can be spoilt
  (`HydrationPipeline.DamageBounded`), and a checksum that tells all contents apart finds it
  (`HydrationPipeline.InlineRestores`).
- So a wake after a wake whose transfer failed succeeds with wrong bytes only in the first jobs of
  the blob, and only if the blob has more jobs than the ring has stages and no checksum is made
  (`SleepWake.DiskBackend.Resume`, `SleepWake.DiskBackend.Cycle`). A transfer that gets to its end
  waits for all reads, so the one after it is right again (`SleepWake.DiskBackend.Attempts`). With
  inline checksums such a retry can also fail its checksums once, although no call fails.
- A capture does not wait for reads that were left in the ring either, and they may write at any
  time. It is right if they can only write what the capture stores, and a byte for which that
  fails can end up in the file (`CapturePipeline.CaptureStaged`, `CapturePipeline.StrayExact`).
- A range is marked released even if its unmap call fails without effect, and it is recorded as
  remapped only after the remap call has returned and, for a discardable range, after it has been
  zeroed. A failure in between leaves the range mapped and unrecorded: it is remapped again while
  still mapped, so no later wake can succeed. A wake succeeds exactly if no range is in that state
  and no call of the attempt fails (`SleepWake.DiskBackend.Resume`).
- The residual sweep reports adjacent spans as overlapping when they are listed in descending
  order; it succeeds exactly on `ResidualSweep.Sweepable` views. Partitions are always sweepable.
- Relocation compares live ranges and live identities as sets. With two identities on one range it
  succeeds and the relocated extents overlap; they tile the live pool exactly if there are as many
  ranges as identities (`Relocation.Relocate`, `Relocation.SharedRange`). The loader derives the
  ranges from the identities, so there the condition holds.
- An undo call that fails inside a graph allocator operation can leave a range mapped that is
  recorded as unmapped, after which no resume of that allocation succeeds
  (`GraphMemory.LeakStrands`). After any run, a clean pause and resume succeed exactly if no
  matching allocation is in that state (`GraphMemory.PauseResume`); other leaks do no harm.
- The loader rejects identical repeated entries and, unless it loads a payload for the first time
  or a new layout, entries that differ from the live map. Two entries with one pointer and
  different sizes can pass these tests; the table keyed by pointer then holds fewer bytes, and the
  coverage scan or the byte totals reject them (`Snapshot.LatestBytes`, `Snapshot.LoadSplitNative`).
- Recipe validation does not compare handle boxes. A successful rebind leaves every box with the
  handle of its own allocation exactly if the boxes are distinct (`CudaEpoch.EpochLibrary.Rebind`).
- Resuming an epoch gives up the host backups of its residuals before the wake runs. A resume that
  fails after the first of these copies leaves the epoch rebound for good: every later resume
  raises (`EpochLifecycle.SpentStays`, `EpochLifecycle.ActiveExact`).
- The capture hook takes an unset warmup phase for a finished warmup, and each hook reads its arm
  file and the scheduler itself. A capture is called before the warmup has begun exactly in a step
  in which the capture hook finds the engine armed and idle and the warmup hook did not
  (`GraphProtocol.EarlyCaptureExact`).
- After a step or a restore that raises, some workers can be gated and others not
  (`GraphProtocol.RaisedStepsDisagree`, `GraphProtocol.RaisedRestoresDisagree`).

## Model

| member | source | states |
|---|---|---|
| Tiling.CheckCoverage | integrations/vllm/coldsnap_disk_backend.py:3162-3224 | the loader's cursor scan accepts exactly the extents that hold every allocation byte once and nothing else |
| Tiling.TiledTotal | integrations/vllm/coldsnap_disk_backend.py:3225-3233 | for extents that tile, the summed sizes equal the allocation bytes |
| Partition.Validate | integrations/vllm/coldsnap_disk_backend.py:451-482 | the first loop accepts exactly the layouts that are positive, named once, disjoint and inside the pool |
| Partition.CutPool | integrations/vllm/coldsnap_disk_backend.py:484-517 | cutting every allocation at its ranges keeps all ranges and tiles the pool with the gaps, which touch no range and come in address order |
| Partition.PartitionPool | integrations/vllm/coldsnap_disk_backend.py:444-520 | succeeds exactly on a valid non-empty layout that leaves a byte over; then model extents are the layout, and with the residual they tile the pool |
| ResidualSweep.ShareResidual | integrations/vllm/coldsnap_disk_backend.py:523-556 | succeeds exactly on sweepable views; stored pieces are disjoint, in order of allocation and address, none is wasted, every view byte is stored, every view refers to whole pieces, and pieces are cut only where a span of a view starts or ends |
| ResidualSweep.SharedUnique | integrations/vllm/coldsnap_disk_backend.py:523-556 | no other list of pieces and no other references have these properties: the result of the sweep is determined by the views |
| ResidualSweep.PickCovers | integrations/vllm/coldsnap_disk_backend.py:523-556 | the pieces a view refers to hold exactly the bytes of the view |
| ResidualSweep.TiledByReferences | integrations/vllm/coldsnap_disk_backend.py:1876-1910 | replacing a view's residual spans by the shared pieces keeps the tiling |
| Snapshot.ValidateResidual | integrations/vllm/coldsnap_disk_backend.py:559-584 | accepts exactly disjoint slots inside the file, page aligned in a shared blob, without gaps in a legacy one, whatever their order |
| Snapshot.CheckSlots | integrations/vllm/coldsnap_disk_backend.py:3190-3210 | accepts exactly model offsets that are the sums of the padded sizes before them and fill the payload |
| Snapshot.TotalsAgree | integrations/vllm/coldsnap_disk_backend.py:3225-3233 | once the extents tile, model and residual bytes always add up to the allocation bytes |
| Snapshot.LoadSplitNative | integrations/vllm/coldsnap_disk_backend.py:3126-3238 | accepts exactly the loadable manifests: portable, positive sizes, no pointer twice, tiling, residual slots, packed payload, totals, and the model in order of digest and size |
| Snapshot.LatestBytes | integrations/vllm/coldsnap_disk_backend.py:3162-3171 | the table keyed by pointer holds as many bytes as the entries exactly if no pointer occurs twice, and then it is the entries |
| Pack.AssignOffsets | integrations/vllm/coldsnap_disk_backend.py:1994-1997 | offsets are the packed sizes of the extents before |
| Pack.PlacedValid | native/coldsnap_hydration.cpp:1158-1180 | the request validator accepts every packed layout whose sources and offsets stay below 2^64 |
| Pack.PackUnique | integrations/vllm/coldsnap_disk_backend.py:1977-2104 | a file that holds every span in its slot and zeros elsewhere is the packed file of the spans' bytes |
| Pack.WriteBlob | integrations/vllm/coldsnap_disk_backend.py:1977-2104 | succeeds only if there are spans, the transport accepts their packed layout and no call fails, and exactly then without readback or if no read in flight can spoil it; the transport accepts every addressable layout; a blob accepted by readback has the digests that were recorded, and an unspoilt one is the packed file, with the digest of every span and, if asked for, of the file |
| Pack.PackedSlice | integrations/vllm/coldsnap_disk_backend.py:1977-2104 | reading a placed extent back gives the captured bytes of its span |
| Pack.PackCanonical | integrations/vllm/coldsnap_disk_backend.py:2115-2150 | with no digest collision the pack depends only on the bag of byte strings |
| Pack.CanonicalExact | integrations/vllm/coldsnap_disk_backend.py:2115-2150 | packs agree for all reorderings exactly if no two byte strings of one length share a digest |
| NativeCapture.Fingerprint | integrations/vllm/coldsnap_disk_backend.py:2126-2135 | the chunked fingerprint is the digest of the whole extent |
| NativeCapture.OrderModel | integrations/vllm/coldsnap_disk_backend.py:2125-2137 | the payload entries are the model extents, keyed by their digests, in order of digest and then of size |
| NativeCapture.SweptReady | integrations/vllm/coldsnap_disk_backend.py:1893-1897 | two partitions of one mapped pool sweep into pieces that are mapped and tile the pool with either model |
| NativeCapture.CaptureNative | integrations/vllm/coldsnap_disk_backend.py:1815-1975 | succeeds only if both layouts can be partitioned and no call fails, and in a pool below 2^51 with no read in flight exactly then; with no read in flight a capture is faithful: both views tile, both files hold the captured bytes, the payload is in canonical order with its digests |
| RoundTrip.PayloadCanonical | integrations/vllm/coldsnap_disk_backend.py:2106-2160 | without collisions the payload file is the canonical pack of the bytes that the native layout names |
| RoundTrip.SamePayload | integrations/vllm/coldsnap_disk_backend.py:2106-2160 | two captures of the same byte strings, at any addresses and in any order, write identical payloads with identical digests |
| RoundTrip.ViewValid | integrations/vllm/coldsnap_disk_backend.py:559-584 | every view of the packed residual blob passes the residual validator |
| RoundTrip.CaptureLoads | integrations/vllm/coldsnap_disk_backend.py:3162-3233 | the native manifest of every capture is loadable |
| RoundTrip.RecoveryLoads | integrations/vllm/coldsnap_disk_backend.py:3292-3333 | the recovery view of every capture tiles, passes the residual validator and has matching totals |
| RoundTrip.LoadableMoves | integrations/vllm/coldsnap_disk_backend.py:3607-3735 | the transfers of a loadable manifest stay inside their files and have disjoint destinations |
| RoundTrip.RestoreExact | integrations/vllm/coldsnap_disk_backend.py:3607-3735 | with no read in flight it succeeds exactly if no call fails and, in inline mode, the checksums are right; a success with no read in flight, or in inline mode with a checksum that tells all contents apart, is the sequential copy of the extents over the memory that the queued copies leave, through one transfer or through the direct split |
| RoundTrip.RestoreSplitNative | integrations/vllm/coldsnap_disk_backend.py:3793-3824 | the same for both files of a loadable manifest: the sequential copy of payload and residual extents |
| RoundTrip.WakeRestores | integrations/vllm/coldsnap_disk_backend.py:3793-3824 | for every faithful capture and any remapped content, the restore leaves the captured bytes in the pool and all else unchanged, and the recorded checksums are those of the bytes it reads |
| RoundTrip.NativeRoundTrip | integrations/vllm/coldsnap_disk_backend.py:1815-1975 | capture, load and restore in one run: the loader accepts every unspoilt capture, with no read in flight the restore succeeds exactly if no call fails, also in inline mode, and every captured byte is back, also if copies into the pool were still queued |
| Placement.Walk | integrations/vllm/coldsnap_disk_backend.py:717-760 | the greedy walk succeeds exactly if totals agree and every cumulative gap boundary is an extent boundary; it fills the gaps with unsplit extents in order |
| Placement.PlaceStream | integrations/vllm/coldsnap_disk_backend.py:717-760 | the same for the list as stored: entries keep their positions, sizes, offsets and digests, and the stream in address order is unchanged |
| Relocation.CheckLive | integrations/vllm/coldsnap_disk_backend.py:652-667 | sorted live allocations are accepted exactly if non-empty, positive and disjoint |
| Relocation.CheckRanges | integrations/vllm/coldsnap_disk_backend.py:762-786 | live model ranges are accepted exactly if each lies in one live allocation and none overlap |
| Relocation.MoveModel | integrations/vllm/coldsnap_disk_backend.py:788-819 | succeeds exactly if identities are distinct, equal as sets, cover the ranges and agree in size; each extent moves to the live range of its own identity and keeps all else |
| Relocation.RelocatedTiles | integrations/vllm/coldsnap_disk_backend.py:762-838 | relocated model and residual tile the live pool exactly if there are as many ranges as identities |
| Relocation.Relocate | integrations/vllm/coldsnap_disk_backend.py:587-858 | unchanged exactly for the same layout or a manifest that is not portable; otherwise relocated exactly if acceptable, with every extent accounted for and the tiling condition |
| Relocation.SharedRange | integrations/vllm/coldsnap_disk_backend.py:800-811 | an accepted input with two identities on one range |
| Relocation.RelocatedLoads | integrations/vllm/coldsnap_disk_backend.py:3026-3044 | a loadable manifest stays loadable after a relocation that kept its residual bytes |
| Relocation.RestoredAt | integrations/vllm/coldsnap_disk_backend.py:3793-3824 | after a restore every model extent holds the payload bytes it names |
| Relocation.RelocationMeaning | integrations/vllm/coldsnap_disk_backend.py:788-838 | restoring a relocated manifest puts, at the live range of each identity, the payload bytes captured for that identity |
| Jobs.MakeJobs | native/coldsnap_hydration.cpp:90-132 | the chunk jobs of the extents, in order; each is part of the extent it names and a whole chunk long unless it ends its extent |
| Jobs.JobsInSequence | native/coldsnap_hydration.cpp:90-132 | the jobs of an extent follow one another without gap and finish it before the next extent begins |
| Jobs.ChunkedCopy | native/coldsnap_hydration.cpp:90-110 | copying the chunk jobs is copying the extents |
| Jobs.FedExtent | native/coldsnap_hydration.cpp:223-240 | the chunks fed to an extent's checksum are its bytes, once and in order |
| HydrationPipeline.Environment | native/coldsnap_hydration.cpp:482-559 | any order of read progress and queued copies keeps the ring invariant: job i is in stage i modulo depth, a stage is refilled only after its copy, and the copies left by an earlier call come first |
| HydrationPipeline.HydrateStaged | native/coldsnap_hydration.cpp:464-559 | for every ring left by an earlier call, every depth and every completion order: succeeds exactly if no call fails, the extents are inside the file and the checksums match what landed in the stages; memory is then the copy of what landed, and if the reads in flight are harmless that is the sequential copy of the extents; a call that gets to its end waits for every read of its stages, and what a failing call had in flight, job by job, is what it leaves in the ring |
| HydrationPipeline.EntryExact | native/coldsnap_hydration.cpp:464-516 | for disjoint mapped destinations, memory ends up with the bytes of the file whatever the reads in flight do, exactly if each of them can only write what the job of its stage reads |
| HydrationPipeline.InlineRestores | native/coldsnap_hydration.cpp:223-270 | with a checksum that tells all contents apart, a transfer that passes its checksums has restored the bytes of the file, whatever was in flight before |
| HydrationPipeline.StaleRetry | native/coldsnap_hydration.cpp:500-525 | three one-byte jobs in two stages: the first is copied and its stage refilled, the second read fails, the third stays in flight; the repeated call ends with the third byte in place of the first |
| HydrationPipeline.LeavesRemain | native/coldsnap_hydration.cpp:482-559 | if all reads in flight are reads of jobs of this transfer in their own stages, a failing call leaves only such reads |
| HydrationPipeline.RetryExact | native/coldsnap_hydration.cpp:506-525 | the left read of job j is harmless for the job k that reuses its stage exactly if their bytes agree as far as both reach |
| HydrationPipeline.FewJobsHarmless | native/coldsnap_hydration.cpp:484-520 | with no more jobs than stages, retrying a transfer is never spoilt by its own left reads |
| HydrationPipeline.DamageBounded | native/coldsnap_hydration.cpp:506-520 | a byte outside the destinations of the first jobs whose stage holds a read in flight ends up as if there were none |
| CaptureLayout.ValidateCapture | native/coldsnap_hydration.cpp:1158-1180 | accepts exactly ordered, disjoint, aligned requests that stay below 2^64 |
| CaptureLayout.TargetHolding | native/coldsnap_hydration.cpp:1247-1255 | a valid request has a file that holds every source in its slot and zeros elsewhere |
| CapturePipeline.Environment | native/coldsnap_hydration.cpp:682-826 | copies arriving, writes completing and reads in flight writing in any order keep the capture invariant; no stage is overwritten by a copy while its write is pending |
| CapturePipeline.FeedZeros | native/coldsnap_hydration.cpp:328-338 | feeding blocks of zeros is feeding all the zeros |
| CapturePipeline.CaptureStaged | native/coldsnap_hydration.cpp:682-826 | for every ring: a valid request succeeds exactly if no call fails, both schedule errors are unreachable; if the reads in flight can only write what the capture stores, the file is each source followed by zeros to the end of its slot, checksums are those of the sources, the file digest is that of the file |
| CapturePipeline.StrayExact | native/coldsnap_hydration.cpp:722-803 | a byte that a read in flight puts under a write that has started ends up in the file, and is right exactly if it is the byte the job stores there |
| Readback.ScanFile | native/coldsnap_hydration.cpp:616-642 | the two-cursor scan gives every extent the digest of exactly its own file bytes |
| Readback.ReadJobs | native/coldsnap_hydration.cpp:643-651 | the job-by-job path computes the same digests |
| Readback.VerifyCapture | native/coldsnap_hydration.cpp:598-680 | succeeds exactly if every digest matches the file |
| Readback.CaptureVerified | native/coldsnap_hydration.cpp:682-826 | what a capture with readback accepts has the recorded digests, whatever the reads in flight did; if they cannot spoil it, it succeeds exactly if the request is valid and no call fails |
| DirectSplit.SplitDirect | integrations/vllm/coldsnap_disk_backend.py:144-181 | every file byte is moved to its original destination exactly as often as before; the direct part is whole pages, no whole page is left to the buffered part, and an extent becomes at most one direct and two buffered pieces |
| DirectSplit.DirectJobsAligned | native/coldsnap_hydration.cpp:473-480 | every chunk job of the direct part passes the alignment check |
| DirectSplit.SplitTransparent | integrations/vllm/coldsnap_disk_backend.py:3624-3652 | direct part then edges is the original copy, for disjoint destinations |
| DirectSplit.HydrateSplit | integrations/vllm/coldsnap_disk_backend.py:3624-3652 | the two hydrator calls fail exactly if a call fails, and with no read in flight restore the sequential copy over the memory that the queued copies leave |
| WeightBlob.TransferExact | integrations/vllm/coldsnap_disk_backend.py:3454-3480 | the weights are right whatever the reads in flight do, exactly if these are harmless for the jobs of the blob |
| WeightBlob.ReadBlob | integrations/vllm/coldsnap_disk_backend.py:3454-3480 | the staged transfer of the blob succeeds exactly if no call fails and the checksums match what landed; the bytes beyond the first jobs are always right, all of them if the reads in flight are harmless or a checksum that tells contents apart has passed; reads of the blob are all that it ever leaves, and none if it gets to its end |
| SleepWake.DiskBackend.Release | integrations/vllm/coldsnap_vllm_memory.py:148-153 | the mark is set even if the unmap call fails; the mapping is gone unless it failed without effect |
| SleepWake.DiskBackend.Suspend | integrations/vllm/coldsnap_disk_backend.py:3358-3435 | succeeds exactly if no call fails; the blob holds the weights, or none is left if its write fails; the graphs are paused exactly if the sleep got past their release or the failing release paused them; nothing is released before that, no discardable range before all weights, and everything on success; what was not released keeps its bytes, only an ineffective unmap strands a range |
| SleepWake.DiskBackend.RemapWeights | integrations/vllm/coldsnap_disk_backend.py:3585-3605 | remaps each released weight that is not yet remapped; fails exactly on a stranded weight or a failing call, and exactly a call that fails after its effect strands its range; the published-during-restore error is unreachable |
| SleepWake.DiskBackend.RemapDiscards | integrations/vllm/coldsnap_disk_backend.py:1439-1546 | remaps and zeroes what was dropped; exactly a failure between a remap and its record strands its range |
| SleepWake.DiskBackend.Commit | integrations/vllm/coldsnap_disk_backend.py:3875-3883 | both commits publish everything at once; neither can find an allocation that was not remapped |
| SleepWake.DiskBackend.Resume | integrations/vllm/coldsnap_disk_backend.py:3908-4055 | succeeds exactly if nothing is stranded, the checksums match what lands and no call fails; success zeroes what was dropped, arms the blob for reuse and restores every weight byte beyond the first jobs of the blob, and every byte if the reads left in flight are harmless or inline checksums tell contents apart; a failure leaves all released marks as they were, remaps discardable ranges only after all weights, and resumes the graphs, after everything is remapped, just if only the last synchronization fails |
| SleepWake.DiskBackend.Attempts | integrations/vllm/coldsnap_disk_backend.py:3908-4055 | over any list of attempts the first success leaves the weights that its last transfer wrote: right beyond the first jobs, and right if the blob has no more jobs than stages, if checksums tell contents apart or if no attempt has left reads in flight; with a stranded range none succeeds; if no attempt fails between a remap and its record, a clean attempt succeeds |
| SleepWake.DiskBackend.Cycle | integrations/vllm/coldsnap_disk_backend.py:3358-3435 | a sleep and its wake attempts: weights as before beyond the first jobs, and as before if no transfer failed or none can be spoilt; dropped ranges zero, other discardable ranges untouched, ready for the next cycle |
| GraphMemory.ApplySound | native/coldsnap_graph_memory.cpp:288-486 | every exported call keeps accessible, mapped and handle flags consistent with the driver, and every identity |
| GraphMemory.RunSound | native/coldsnap_graph_memory.cpp:113-129 | the same for every run, whatever fails |
| GraphMemory.PauseKept | native/coldsnap_graph_memory.cpp:628-651 | pausing changes no identity and nothing that does not match |
| GraphMemory.ResumeKept | native/coldsnap_graph_memory.cpp:653-675 | resuming changes no identity and nothing that does not match |
| GraphMemory.RunExact | native/coldsnap_graph_memory.cpp:376-486 | in every run whose undo calls succeed the driver holds exactly the recorded ranges, handles and reservations |
| GraphMemory.RoundedExact | native/coldsnap_graph_memory.cpp:262-267 | the computed size is the least multiple of the granularity that holds the request, and no other size is |
| GraphMemory.PauseEachMeaning | native/coldsnap_graph_memory.cpp:628-651 | whichever calls fail, the pause loop succeeds exactly if every match that is not paused can be dropped, and then they are paused |
| GraphMemory.ResumeEachMeaning | native/coldsnap_graph_memory.cpp:653-675 | whichever calls fail, the resume loop succeeds exactly if every match can be restored, and then they are active |
| GraphMemory.ResumeClean | native/coldsnap_graph_memory.cpp:407-486 | a resume in which nothing fails succeeds exactly if no listed match is paused with its range still mapped or its size no longer fitting, and then all matches are active |
| GraphMemory.PauseResume | native/coldsnap_graph_memory.cpp:628-675 | from every state of every run, whatever failed: a clean pause succeeds exactly outside a scope and pauses all matches; a clean resume then succeeds exactly if no matching allocation was recorded unmapped while its range was mapped and all still fit, and makes them active at the same addresses |
| GraphMemory.TidyRestorable | native/coldsnap_graph_memory.cpp:628-675 | after a run whose undo calls succeed, fitting is the whole condition |
| GraphMemory.LeakStrands | native/coldsnap_graph_memory.cpp:473-483 | one failed undo call after which a clean pause and resume do not succeed |
| GraphMemory.GraphAllocator.Drop | native/coldsnap_graph_memory.cpp:376-405 | succeeds exactly if no needed call fails; then the allocation is paused and the driver holds neither its range nor its handle; a failure leaves it as far as it got, and inaccessible once its unmapping has begun; the table stays sound, the identity is kept and nothing beside it changes |
| GraphMemory.GraphAllocator.Restore | native/coldsnap_graph_memory.cpp:407-486 | succeeds exactly if the allocation is active already or the range is free, the rounded size is still the recorded one and every call works; then it is active with a new handle mapped at its old address; a failure leaves it as it was, but for an old handle that was released; the table stays sound, the identity is kept and nothing beside it changes |
| GraphMemory.GraphAllocator.AllocateAt | native/coldsnap_graph_memory.cpp:288-374 | outside a scope or for no bytes it does nothing; otherwise it succeeds exactly if the device is the one of the scope, the size does not overflow, the address is free and every call works, and then there is one new active allocation whose size is the least multiple of the granularity that holds the request; a failure records nothing and, if its undo calls work, leaves nothing in the driver; the other allocations are untouched and the table stays sound |
| GraphMemory.GraphAllocator.FreePointer | native/coldsnap_graph_memory.cpp:524-589 | a foreign pointer is ignored; for a managed one it succeeds exactly if every needed call works, and then the allocation, its range, its handle and its reservation are gone; a failure forgets no allocation and changes no other one, and the table stays sound |
| GraphMemory.GraphAllocator.PauseMatching | native/coldsnap_graph_memory.cpp:628-651 | in any iteration order: succeeds exactly outside a scope, if every device of a match can be synchronised and every match that is not paused can be dropped; then all matches are paused; no identity and nothing that does not match changes, whatever fails |
| GraphMemory.GraphAllocator.ResumeMatching | native/coldsnap_graph_memory.cpp:653-675 | in any iteration order: succeeds exactly outside a scope, if every match can be restored and every device of a match can be synchronised; then all matches are active; no identity and nothing that does not match changes, whatever fails |
| CudaEpoch.EpochLibrary.Rollback | native/coldsnap_cuda_epoch.cpp:118-143 | with working calls, undoing in reverse order restores handles and ranges and zeroes every box; nothing else is written |
| CudaEpoch.EpochLibrary.Rebind | native/coldsnap_cuda_epoch.cpp:435-564 | succeeds exactly if every request binds; a success binds every request to new handles and ranges, adds nothing else to the driver and publishes just the devices it names, and the boxes are right exactly if they are distinct; a failure publishes nothing and, if the rollback works, leaves the driver as it was and zeros in the boxes of the requests it had entered; in any case nothing the driver held is lost, no other box is written, and the next rebind can start |
| CudaEpoch.EpochLibrary.ResetDevice | native/coldsnap_cuda_epoch.cpp:185-228 | a reset withdraws its device and no other, even if a later call fails; once the device is reset exactly its handles and ranges are gone |
| CudaEpoch.ResetFrees | native/coldsnap_cuda_epoch.cpp:185-228 | after a rebind and a reset of its device, none of its addresses is taken any more |
| CudaEpoch.EpochLibrary.ActivateDevice | native/coldsnap_cuda_epoch.cpp:566-599 | succeeds only if a rebind that named the device succeeded since its last reset |
| CudaEpoch.ActivationExact | native/coldsnap_cuda_epoch.cpp:185-599 | over every run a device is published exactly if such a rebind exists |
| EpochLifecycle.ValidateRecipes | integrations/vllm/coldsnap_cuda_epoch.py:217-238 | accepts exactly non-empty recipes on one device with distinct keys and disjoint ranges |
| EpochLifecycle.ForwardedCount | integrations/vllm/coldsnap_cuda_epoch.py:682-687 | every prebound key that is requested is claimed exactly once; all other requests reach the original mapper |
| EpochLifecycle.Epoch.Claim | integrations/vllm/coldsnap_cuda_epoch.py:682-687 | forwarded are exactly the requests that are not the first for a prebound key, so that one request per prebound key is claimed; pending are the keys of the recipes that were not requested |
| EpochLifecycle.Epoch.ResumeEpoch | integrations/vllm/coldsnap_cuda_epoch.py:602-712 | succeeds exactly from a rebound or rebindable epoch whose host backups are all there and copied and whose wake returns and has asked for the key of every recipe that was not externalized; otherwise the epoch is rebound, in error after a failed rebind, or as it was; forwards exactly the requests that are not first for a prebound key |
| EpochLifecycle.ActiveExact | integrations/vllm/coldsnap_cuda_epoch.py:543-712 | over every run of reset, rebind and resume calls: active exactly if the first working reset was followed by a first attempt to rebind that worked and then by a completed wake before any other resume had given up a host backup; error exactly if that attempt failed; both are final |
| EpochLifecycle.SpentStays | integrations/vllm/coldsnap_cuda_epoch.py:602-645 | a rebound epoch that has given up a host backup stays as it is under every further call |
| EpochLifecycle.Epoch.Hydrate | integrations/vllm/coldsnap_cuda_epoch.py:624-645 | succeeds exactly if no backup is missing and every copy works, and then it has copied just the externalized recipes; a backup is given up as soon as one copy has worked |
| MmapRegistry.TouchesByte | native/coldsnap_nvidia_mmap_shim.c:158-174 | touching a range is having a byte in common with it |
| MmapRegistry.Registry.Forget | native/coldsnap_nvidia_mmap_shim.c:176-197 | swap removal keeps exactly the entries that the range does not touch, also if the range wraps around |
| MmapRegistry.Registry.Record | native/coldsnap_nvidia_mmap_shim.c:239-272 | the table stays disjoint and bounded; the mapping is recorded exactly if fewer than 4096 entries remain, and a full table closes the duplicate again |
| MmapRegistry.Registry.Munmap | native/coldsnap_nvidia_mmap_shim.c:333-346 | a successful unmap forgets what it touches, a failed or empty one nothing |
| MmapRegistry.Registry.Publish | native/coldsnap_nvidia_mmap_shim.c:277-331 | succeeds exactly if every mapping is gone, or live with a valid descriptor that the broker took; exactly these lose their descriptors; otherwise the result is the error of the first other mapping, from its inspection, its descriptor or the broker; success leaves no descriptor open |
| GraphProtocol.StepInv | integrations/vllm/coldsnap_vllm_async_graphs.py:642-732 | a completed step keeps all workers gated or none, and the engine becomes ready only if every worker is ready and ungated, wherever a raising call leaves its worker |
| GraphProtocol.CaptureExact | integrations/vllm/coldsnap_vllm_async_graphs.py:680-732 | a capture call ends ready exactly if every worker answers and is ready, eager for one retry exactly if every worker answers, those not ready name a stale pool, a retry is left and all accept it, and otherwise falls back or raises, depending on whether a worker refuses the fallback |
| GraphProtocol.HookExact | integrations/vllm/coldsnap_vllm_async_graphs.py:642-732 | the capture hook calls a capture exactly for an armed, idle engine in the eager phase, or retained and rearmed, that has seen an eager step and whose warmup is unset or well ended; after a failed warmup it falls back; else it only counts the step |
| GraphProtocol.RestoreInv | integrations/vllm/coldsnap_vllm_async_graphs.py:735-762 | a completed restore keeps the agreement |
| GraphProtocol.RunAgrees | integrations/vllm/coldsnap_vllm_async_graphs.py:642-762 | from every state in which the workers agree, over every run of completed events, whatever single workers do and wherever a raising call leaves them, they agree and at most two captures are called per generation |
| GraphProtocol.StartsAgree | integrations/vllm/coldsnap_vllm_async_graphs.py:300-388 | an engine without a phase and with alike workers, also ones that have compiled their graphs synchronously, is such a state |
| GraphProtocol.RaisedStepsDisagree | integrations/vllm/coldsnap_vllm_async_graphs.py:680-696 | a step that raises and leaves the workers divided |
| GraphProtocol.RaisedRestoresDisagree | integrations/vllm/coldsnap_vllm_async_graphs.py:749-754 | a restore that raises and leaves the workers divided |
| GraphProtocol.WarmupFirst | integrations/vllm/coldsnap_vllm_deferred_warmup.py:407-466 | with covering readings a step calls a capture only after the warmup ended well, and never after it failed |
| GraphProtocol.EarlyCaptureExact | integrations/vllm/coldsnap_vllm_async_graphs.py:659-686 | a capture is called before the warmup has begun exactly if the readings do not cover each other |
| GraphProtocol.EarlyCapture | integrations/vllm/coldsnap_vllm_async_graphs.py:659-686 | the first step of an engine can be such a step |
| GraphProtocol.RunWarmsFirst | integrations/vllm/coldsnap_plugin.py:75-80 | from every state in which the capture hook has counted no step that the warmup hook has not, over every run with covering readings, captures are called only in steps that find the warmup well ended |
| GraphProtocol.EngineCore.CallCapture | integrations/vllm/coldsnap_vllm_async_graphs.py:422-461 | raises exactly if a worker does; an eager worker that captures is ready and ungated, one that fails is failed, gated and keeps the kind of its error, and any other is unchanged |
| GraphProtocol.EngineCore.CallRetry | integrations/vllm/coldsnap_vllm_async_graphs.py:556-564 | raises exactly if a worker refuses; every worker that obeys is eager and gated |
| GraphProtocol.EngineCore.CallFallback | integrations/vllm/coldsnap_vllm_async_graphs.py:567-576 | raises exactly if a worker refuses; every worker that obeys has fallen back and is gated |
| GraphProtocol.EngineCore.CallWarm | integrations/vllm/coldsnap_vllm_deferred_warmup.py:236-271 | raises exactly if a worker does; a warmup that has ended stays, one that was not deferred is done, any other ends as its reply says; no phase and no gate changes |
| GraphProtocol.EngineCore.FallBackEngine | integrations/vllm/coldsnap_vllm_async_graphs.py:629-632 | raises exactly if some worker refuses, and then the engine phase is unchanged; otherwise every worker has fallen back and is gated |
| GraphProtocol.EngineCore.CaptureNow | integrations/vllm/coldsnap_vllm_async_graphs.py:680-732 | one capture call: ready, eager for a retry, fallen back or raised exactly under the conditions of `CaptureExact`; ready with every worker ready, eager with every worker eager and gated and one retry used, fallen back with every worker gated |
| GraphProtocol.EngineCore.MaybeCapture | integrations/vllm/coldsnap_vllm_async_graphs.py:642-732 | a completed hook keeps the agreement and makes the engine ready only if every worker is; it calls a capture exactly when `HookExact` says, and falls back after a failed warmup |
| GraphProtocol.EngineCore.MaybeWarm | integrations/vllm/coldsnap_vllm_deferred_warmup.py:407-466 | calls the workers exactly for an armed, idle engine that has seen a step and whose warmup has not begun; the engine becomes warm exactly if every worker is then warm and the cache is reset, and failed otherwise; keeps the agreement, the engine phase and the capture count |
| GraphProtocol.EngineCore.ProcessStep | integrations/vllm/coldsnap_plugin.py:75-80 | the two hooks in their installed order: a completed step keeps the agreement, and with covering readings a capture is called only after the warmup ended well |
| GraphProtocol.EngineCore.PrepareRestore | integrations/vllm/coldsnap_vllm_async_graphs.py:735-762 | raises exactly if a worker refuses or there is none and graphs are not retained; a completed restore keeps the agreement, resets the counters and, unless graphs are retained, leaves every worker eager and gated |

## Left out

- Timing, metrics, logging, state files and error texts: they decide nothing beyond success or failure.
- The textual form of checksums (eight or sixty-four hexadecimal digits) and JSON types in manifests.
- `_write_snapshot` byte by byte: the blob of `SleepWake` is the saved bytes of every weight allocation; it is read back by the staged transfer itself (`WeightBlob`).
- The Python fallback transfers (`_restore_pipeline` and `_restore_exact_extents` without the native library): the same loops as the native ones, with fewer interleavings.
- Restoring from safetensors and live residual snapshots: they depend on code of the inference engine.
- Wakes that name single regions: only the full wake is modelled.
- Allocation tags, file identities, process identities and snapshot generations in manifests.
- Statistics and enumeration of graph allocations, context probes and driver version checks: read-only.
- `EpochLifecycle`: the bytes of externalized residuals and nested resumes are not modelled.
- Real CUDA, NCCL and kernel behaviour: driver calls succeed or fail, a range can be mapped only where nothing is mapped, and a new handle, descriptor or reservation is one that is not in use.
- GraphProtocol.WarmupFirst: an exception outside the caught class in the warmup call ends the run, like a step that raises.
- Relocation.CheckRanges: the overlap test is made once over all sorted ranges instead of once per allocation, which is the same because every range lies in one of the disjoint allocations.
- HydrationPipeline.HydrateStaged: the copies that a failed call has left on the stream of a ring that is replaced are taken to have run when the ring is destroyed.
- CapturePipeline.CaptureStaged: the copies that a failed hydration has left on the stream are taken to have run, and `device` is the memory after them; that a harmful read is really in flight is shown step by step (`StrayExact`), not as a whole run.
- SleepWake.DiskBackend.Suspend: requires that a blob marked for reuse holds the running weights, which every wake leaves that was not spoilt; the capture of the blob starts with no read in flight, which holds while the engine is awake.
- NativeCapture.CaptureNative: outside a pool below 2^51 it does not say when the packed offsets stay below 2^64; with reads in flight it says nothing about the contents of the files, which `WriteBlob` does.
- Scopes of the graph allocator (`PushScope`, `PopScope`) and the single reset and rebind calls of an epoch have no rows: their contracts are their few lines.
- The guards of `record_if_nvidia` (failed mmap, no broker, foreign descriptor): nothing is recorded then.
