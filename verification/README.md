# A verified model of oci2gdsd

oci2gdsd delivers model files from an OCI registry to disk and from there into GPU memory.
This project models the parts of it in which states, interleavings and failures meet, and
proves what they promise. `dafny verify dfyconfig.toml` checks all of it.

- **Publish, lease and GC.** `publish` (trees and the two verifications), `records` (leases,
  state table), `model_steps` (each operation as single durable steps), `service` (Ensure,
  Release, Recover and one GC candidate as imperative code over disk, journals and record
  store; every effect is one step of `model_steps`), `recovery` (crashes of Recover),
  `service_runs` (all interleavings with per-model locks and crashes), `record_runs` (what each
  put and marker makes of a record and journal there), `download` and
  `downloaded_model` (the worker pool and what it stages), `gc` (the whole GC).
- **GPU residency.** `cuda_bridge` (driver and context table), `loader_state` and
  `gds_loader` (the loader's critical regions and its class), `driver_use`, `loader_runs`
  (all interleavings of loads, unloads and sessions), `shard_loops` (the service's loops with
  their rollbacks), `attach_race`, `attachments` (client sessions against importer counts),
  `residency`, `sessions` and `gpu_service` (allocations, leases, TTL).
- **Device read.** `device_io` (a device whose every call may fail) and `persistent_load` (the
  direct, tail and host-fallback copy), and `loader_contents`, which carries that copy through
  every interleaving of the loader.
- **Caches and codecs.** `oldest_first` and `sorting`, `token_cache`, `tensor_parse`,
  `tensor_cache`, `base64`, `chunked`.

Imperative code is modelled as classes and methods that are proved against functions on
values; concurrent calls are state machines over those functions, one critical region, one
channel operation or one durable write per step. What the world answers (I/O errors, driver
codes, clocks, what the registry sends) is a free choice or an argument. Ghost fields count the
failures (`faults`, `refused`, `refusals`, `failed`, `fellShort`), so that contracts can say when
a call must succeed.

Assumptions the proofs rest on: a digest is an injective function of the bytes; a rename and
a store write are atomic and durable; an append writes a whole marker, and deleting a journal
(and Recover's own append) succeeds; nobody else edits published files; different models have
different, un-nested paths, journals and locks; Recover runs before any other call.

Where the code differs from what one might expect, the code is followed: Release and the
lease-only release store READY whatever the status was; a crash between TXN_COMMITTED and the
last put leaves PUBLISHING; the pool returns nil with blobs missing when the caller's context
is cancelled between blobs; re-attaching a client replaces its session entry but adds a second
import; the tail of a direct read goes through a registered 4 KiB block before any fallback;
an allocation that fails or is unloaded takes the lease of its holder, also when another live
allocation of the model has the same holder, and that one can then no longer be unloaded.

Load counts equal live allocations, and imports are explained by sessions, through every call
but the following, each of which has its exact condition among the results below: an unload
whose context is cancelled, or whose free fails, between two shards; an unload whose lease or
record the store keeps; a rollback that cannot free; an allocation limited by MaxShards; a
second load of an allocation; and a detach whose context is cancelled between two shards, after
which the imports left over keep the allocation from being unloaded.

## Model

| member | source | states |
|---|---|---|
| Publish.VerifyPublishedPath | internal/app/service.go:1151-1212 | Valid exactly when READY, metadata and shards directory exist, every listed shard has a valid name and a file of its size and digest, and there are as many files as shards; any other verdict names something that is so |
| Publish.VerifyPublishedPathQuick | internal/app/service.go:1214-1259 | the same for the walk that compares sizes only, which never answers a digest mismatch |
| Publish.TrimResult | internal/app/util.go:43-61 | trimming is idempotent, leaves no surrounding space, and leaves a trimmed name alone |
| Publish.TrimTakesSpace | internal/app/util.go:43-61 | what trimming takes away is space, before and behind |
| Publish.ValidNameIsComponent | internal/app/util.go:43-61 | a shard name is valid exactly when it is not empty or a dot name once trimmed and has no slash or backslash anywhere |
| Publish.Pigeonhole | internal/app/service.go:1169-1209 | as many different names as shards means that no shard name occurs twice: what the file count of both checks buys |
| Publish.NamesAreFiles | internal/app/service.go:1229-1257 | where the quick check passes, the files are exactly those the profile names |
| Publish.QuickIsFull | internal/app/service.go:1151-1259 | on any tree a verified download can have left, or any part of one, the quick check and the full digest check give the same verdict |
| Publish.QuickNamesExact | internal/app/service.go:1229-1257 | where the quick check passes, the shard names are trimmed and pairwise different |
| Publish.RemovalKeepsGrounded | internal/app/service.go:1085-1090 | taking one entry away, which is where RemoveAll can be interrupted, keeps the two checks in agreement |
| Publish.RemovalInvalidates | internal/app/service.go:1085-1090 | the first entry a removal takes from a valid tree makes both checks refuse what is left |
| Records.AcquireLease | internal/store/store.go:341-358 | the lease joins at the end, once, unless the holder is unnamed or listed; joining makes the record unreleasable |
| Records.ReleaseLease | internal/store/store.go:360-374 | every lease of the holder goes, the rest keep their order; the count left is returned |
| Records.ReleaseUndoesAcquire | internal/store/store.go:341-374 | releasing a fresh lease gives back exactly the list before it was acquired |
| Records.WithoutHolds | internal/store/store.go:360-374 | after a release the holder has no lease, and every other holder has one exactly if it had one |
| Records.ReleaseLeaseOnly | internal/app/gpu.go:1508-1528 | the record ends READY whatever it was, releasable, with a time, exactly when no lease is left; the holder has no lease, everybody else has one exactly if they had one |
| ModelSteps.PutPointStep | internal/app/service.go:418-454 | at each put the stored record differs from the operation's copy only in its time, or nothing is stored and the call ends |
| ModelSteps.AppendPointStep | internal/app/journal.go:32-48 | an append adds one marker, or ends the call with the journal as it was |
| ModelSteps.LinkedExtend | internal/app/service.go:355-664 | a trail of stages stays a chain of single steps when a step is added |
| ServiceRuns.ChecksAgreeEverywhere | internal/app/service.go:355-664 | in every state of every interleaving of Ensure, Release with cleanup, GC, load, unload, Recover and crashes at any step, also inside a removal, the quick and the full check agree on every final path |
| ServiceRuns.TreesOnlyShrink | internal/app/service.go:594-640 | a tree appears only whole, by the rename of a staged one onto a free path; afterwards single entries go, under the model's lock, until the bare directory does |
| ServiceRuns.StepMovesTree | internal/app/service.go:594-640 | the same for one step of one operation |
| ServiceRuns.MutualExclusion | internal/app/lock.go:22-73 | two operations never run on one model at a time |
| ServiceRuns.LeaseListIsEffect | internal/app/service.go:383-454 | no lease is lost: the stored holders are the effect of the acquires and releases of the model in lock order |
| ServiceRuns.AcquireIsApplied | internal/store/store.go:341-358 | on holders, acquiring is adding at the end unless listed |
| ServiceRuns.ReleaseIsApplied | internal/store/store.go:360-374 | on holders, releasing is dropping |
| ServiceRuns.StepFollowsEvent | internal/app/gpu.go:716-737 | a step changes the stored holders by exactly the lease event it logs, and otherwise not at all |
| ServiceRuns.GcOnlyUnleased | internal/app/service.go:1028-1072 | from the first entry GC removes until RELEASED is stored, the model has no lease |
| ServiceRuns.EnsureStoresVerified | internal/app/service.go:642-655 | when Ensure stores READY over what it staged, the tree at the final path passes the full verification if the staged one would |
| ServiceRuns.StartUpVerifies | internal/app/service.go:282-353 | from every reachable state, after any number of crashed recoveries and a complete one: every READY record's tree passes the full digest verification, no marker is left, and the holders are those the acquires and releases left |
| ServiceRuns.CodeStepsAreSteps | internal/app/service.go:355-664 | every step a method of ModelService.Service takes is a step of the machine of all runs, on that model only |
| ServiceRuns.ReachableInv | internal/app/service.go:355-664 | the invariant of locks, running operations, trees and lease logs holds in every reachable state |
| RecordRuns.RecordsMoveAtPuts | internal/app/service.go:355-664 | in every interleaving with crashes a stored record changes only under its model's lock, at a put, from and to what that put is for, written out field by field for each of the twelve puts; or while Recover runs alone, to what it decides |
| RecordRuns.EnsureTurnsReady | internal/app/service.go:461-655 | over every step of an Ensure, the stored status becomes READY only at the last put of a transaction whose tree is in place, and FAILED only out of a transaction under way |
| RecordRuns.JournalsMoveAtMarks | internal/app/journal.go:32-86 | a journal changes only under its model's lock, by one marker when all earlier ones of the transaction stand, or by being dropped once the record is READY after a transaction or RELEASED after a deletion; or while Recover runs alone |
| RecordRuns.FailureLeavesMarkers | internal/app/service.go:461-478 | a transaction that stores FAILED keeps its markers, the first of them at least |
| Recovery.CrashChangesNothing | internal/app/service.go:282-353 | from every durable state a crash of Recover can leave, a later run ends where the interrupted one would have, times aside |
| Recovery.OutcomeIsEnd | internal/app/service.go:282-353 | where Recover leaves a model does not depend on when it runs, but for the time it stores |
| Recovery.RecoverKeepsLeases | internal/app/service.go:282-353 | at every write Recover has touched no tree and no lease, and it ends without markers |
| Recovery.RecoveredIsDecided | internal/app/service.go:299-350 | the decision above, for where the trace of a model ends |
| Recovery.InterruptedIsDecided | internal/app/service.go:299-350 | at every write the record is as it was or already the one decided on |
| Recovery.ReadyIsVerified | internal/app/service.go:309-350 | a record that Recover leaves READY has a tree that passes the full verification, although Recover checks sizes only |
| Recovery.CrashesDoNotMatter | internal/app/service.go:282-353 | however often Recover crashes and is run again over all models, it ends with the statuses, errors, paths, leases and journals of one undisturbed run |
| Recovery.RecoveredReadyIsVerified | internal/app/service.go:282-353 | after any such sequence every READY record passes the full digest verification and no marker is left |
| ModelService.Service.Put | internal/store/store.go:207-225 | stores the record with the time of the put, or nothing; no other model changes; the call stands where the step machine says |
| ModelService.Service.Append | internal/app/journal.go:32-48 | adds the marker to this model's journal, or nothing |
| ModelService.Service.DropJournal | internal/app/journal.go:79-86 | this model's journal is empty afterwards |
| ModelService.Service.RemoveAll | internal/app/service.go:1085-1090 | entry by entry, in any order; on success nothing is left, on failure some part of the tree, and no other model is touched |
| ModelService.Service.Rename | internal/app/service.go:627-639 | the staged tree is at the final path, whether or not the directory sync works afterwards |
| ModelService.Service.Fail | internal/app/service.go:461-478 | stores FAILED with that reason and message and the leases as they were, and says whether the store took it |
| ModelService.Service.FetchAndDownload | internal/app/service.go:448-556 | from RESOLVING to the finished download, with its puts, markers and failures in order |
| ModelService.Service.WriteStaged | internal/app/service.go:560-615 | the two blob markers, VERIFYING and PUBLISHING, then metadata and READY each before its marker; the state transitions are all allowed |
| ModelService.Service.PublishStaged | internal/app/service.go:617-655 | a free final path gets the staged tree by rename, a taken one must pass the full verification; READY is stored only after that and the journal dropped |
| ModelService.Service.Ensure | internal/app/service.go:383-664 | READY: the reused record without error, or a fresh one with the profile's bytes, no marker left, the holder on its list and a tree in place that was verified or is the staged one. FAILED: the record is FAILED with the reason and message of the fetch, download, file, rename or verification that failed, unless the store refused that put. ERROR: the record is untouched or still in the transaction. Without READY a record is never made READY. It answers READY unless the fetch or download failed, the tree already there is not sound, or a store, journal or file operation failed. Leases are only added, an existing tree is never replaced, and the call is a chain of machine steps on this model |
| ModelService.Service.Release | internal/app/service.go:895-951 | the holder's lease goes and the count of the rest is answered; the record is READY or, after a cleanup without leases, RELEASED without path and bytes; the tree is touched only by a cleanup that leaves no lease, and then it is gone; a refusal, which takes an unnamed holder or a failing store or disk, changes no record, an unknown model nothing |
| ModelService.Service.CollectOne | internal/app/service.go:1028-1072 | under the lock a model is skipped exactly when it is no candidate; a deletion leaves no tree, no journal and RELEASED; a dry run changes nothing; a failure keeps the record |
| ModelService.Service.RecoverModel | internal/app/service.go:299-350 | in terms of record, journal and tree before: a READY marker without TXN_COMMITTED over a tree that passes the light check gives READY without error; any other open transaction FAILED, state_db_corrupt and the message of its case; a READY record without a sound tree FAILED, state_db_corrupt; everything else stays. An interrupted round leaves the record as it was or so decided, and its states are a prefix of the model's trace |
| ModelService.Service.Recover | internal/app/service.go:282-353 | the same decision for every model, with no marker left; if a call fails, each model is as it was or decided |
| DownloadPool.SuccessIsChecked | internal/app/service.go:666-701 | when the pool returns nil, a file whose name one blob alone has holds bytes of that blob's size and digest, for every interleaving and also under cancellation |
| DownloadPool.SuccessIsComplete | internal/app/service.go:703-769 | when the pool returns nil and the caller's context lives, every blob was received, finished and accepted, its name is valid and its file is there |
| DownloadPool.CancelledSuccessMayLackBlobs | internal/app/service.go:721-726 | with the caller's context cancelled, the pool can return nil without a blob |
| DownloadPool.FaultlessSucceeds | internal/app/service.go:703-769 | a run in which nothing fails and no context is cancelled ends with nil and every blob there, its size and digest checked |
| DownloadPool.NeverStuck | internal/app/service.go:703-769 | until it has returned, the pool can always take a step, whatever has failed |
| DownloadPool.ReachableInv | internal/app/service.go:703-769 | the invariant of queue, workers and files holds after every step of the producer, the workers and the context |
| DownloadedModel.MapShards | internal/registry/oras.go:130-161 | one blob per shard, trimmed name, digest and the size of its layer; refused exactly when a layer is missing or a name invalid |
| DownloadedModel.PoolFits | internal/app/service.go:703-769 | what any successful run of the pool leaves fits the profile as the agreement of the two checks needs |
| DownloadedModel.DownloadVerifies | internal/app/service.go:597-663 | for every interleaving, the staged tree of a download that ended with a live context passes the full verification if and only if the profile's names are trimmed and different and its sizes are the layers' |
| DownloadedModel.EnsureDownloaded | internal/app/service.go:544-663 | on top of any such run, Ensure returns READY only with a verified tree at the final path, and always when the pool succeeded, nothing else fails and no unsound tree is in the way |
| DownloadedModel.EnsureByReference | internal/app/gpu.go:364-390 | what an allocation by reference takes from Ensure is what Ensure leaves: more leases only, and READY only with a READY record that lists the holder |
| Gc.BeforeIsOrder | internal/app/service.go:995-1014 | the comparator is a strict weak order |
| Gc.SortByQualifies | internal/app/service.go:995-1014 | some sort by the comparator exists, so what is stated for every such sort is not empty |
| Gc.ShortestPrefixUnique | internal/app/service.go:1031-1034 | the prefix the loop deletes is determined by candidates, estimate and target |
| Gc.SameReport | internal/app/service.go:1052-1076 | a dry run and a real run from the same state report the same models and bytes, whatever the library's sort makes of ties |
| Gc.ReportMeans | internal/app/service.go:995-1076 | what any sort by the comparator makes GC report, in terms of the records alone |
| Gc.SortedSound | internal/app/service.go:971-1014 | every sort by the comparator gives an ordered list of the same candidates, none twice |
| Gc.List | internal/store/store.go:234-254 | all records, each once, ordered by model id and then by digest |
| Gc.Candidates | internal/app/service.go:975-994 | exactly the listed models that are eligible, in order |
| Gc.DeleteOne | internal/app/service.go:1035-1072 | run alone, a candidate is never skipped; if its deletion fails, it keeps its record and all others are untouched |
| Gc.GC | internal/app/service.go:953-1083 | in terms of the records before: it deletes only READY, RELEASED or FAILED models with a path and without leases, each once; in order, and before all that may go and stay, those with a releasable time first, then the earlier time, then the earlier update, then the larger; freed is the sum of their bytes; without the last of them the target is missed, and it is reached unless nothing more may go. What is deleted is gone and RELEASED, the rest untouched, and everything in a dry run. A run that stops does so at one model that may go, after an error, short of the target. Other policies are refused |
| Sorting.SortByIsSort | internal/app/service.go:995-1014 | the sort rearranges and orders |
| Sorting.StringOrder | internal/app/runtime_bundle_token.go:152-157 | Go's string comparison is a strict total order |
| Sorting.StringLessMeans | internal/app/runtime_bundle_token.go:152-157 | one string is less than another exactly when they agree up to a place where it ends or has the smaller byte |
| Sorting.ListingUnique | internal/store/store.go:247-252 | a set of keys has one sorted listing |
| CudaBridge.Bridge.FindCtx | internal/gpu/gds_linux_bridge.c:25-32 | the index of the device in the table, or none when it is absent |
| CudaBridge.Bridge.Init | internal/gpu/gds_linux_bridge.c:34-48 | opens the driver once; fails exactly on a failing cuInit, or a failing open of a closed driver |
| CudaBridge.Bridge.Activate | internal/gpu/gds_linux_bridge.c:128-167 | a device in the table is reused, otherwise it is retained and added, up to 128; fails exactly on a closed driver, a full table or a failing lookup or retain |
| CudaBridge.Bridge.ReleaseContexts | internal/gpu/gds_linux_bridge.c:53-64 | each table entry's context is given back, in order, unless its device lookup fails |
| CudaBridge.Bridge.Shutdown | internal/gpu/gds_linux_bridge.c:50-75 | the table is empty afterwards, and the driver closed unless closing fails |
| CudaBridge.Bridge.Free | internal/gpu/gds_linux_bridge.c:686-719 | frees exactly that buffer, or none with the failing step's code; with the device in the table it fails exactly when push, set-device or free does |
| CudaBridge.Bridge.Load | internal/gpu/gds_linux_bridge.c:329-378 | exactly one more buffer on success and none more on a failure; with the device in the table the outcome is the read's |
| CudaBridge.ActivateKeepsValid | internal/gpu/gds_linux_bridge.c:128-167 | the table never overflows, never holds a device twice, and every device in it is retained |
| CudaBridge.ShutdownKeepsValid | internal/gpu/gds_linux_bridge.c:50-75 | shutting down keeps the table so |
| CudaBridge.FreeAndLoadKeepValid | internal/gpu/gds_linux_bridge.c:329-719 | loading and freeing buffers keeps the table so |
| CudaBridge.ShutdownUndoesActivations | internal/gpu/gds_linux_bridge.c:50-75 | shutdown gives back exactly what activation took when all lookups work |
| CudaBridge.ShutdownGivesBack | internal/gpu/gds_linux_bridge.c:50-75 | of each device in the table one retain is given back, unless its lookup fails, and of no other device any |
| CudaBridge.OnlyShutdownTakesAway | internal/gpu/gds_linux_bridge.c:34-75 | no other call closes the driver or gives a context back |
| LoaderState.DetachUndoesAttach | internal/gpu/gds_linux.go:441-529 | detaching takes back exactly what attaching added |
| LoaderState.UnloadEffect | internal/gpu/gds_linux.go:531-583 | what an unload leaves of entries and device memory, outcome by outcome |
| LoaderState.SessionsKeepValid | internal/gpu/gds_linux.go:178-227 | session counts stay positive and entries sound |
| LoaderState.ImportsKeepValid | internal/gpu/gds_linux.go:441-529 | importerRefs stays the sum over clients |
| LoaderState.UnloadKeepsValid | internal/gpu/gds_linux.go:531-583 | load counts stay positive |
| LoaderState.LastEndShutsDown | internal/gpu/gds_linux.go:208-227 | an end of session that leaves no session and no entry leaves an empty table, a closed driver unless closing fails, and with working lookups no retain that came from the table |
| LoaderState.LastUnloadShutsDown | internal/gpu/gds_linux.go:577-583 | so does an unload that frees the last entry with no session left |
| LoaderState.FailedBeginShutsDown | internal/gpu/gds_linux.go:178-206 | so does an activation that fails when nothing else needs the driver |
| GdsLoader.GdsLoader.BeginSession | internal/gpu/gds_linux.go:178-206 | one session more; the first on a device finds or makes the driver open and the device retained, later ones leave the driver alone. It fails exactly when the driver cannot be opened or the device not activated; then no session is counted, and after a failed activation that leaves nothing else in need of it the driver is shut down |
| GdsLoader.GdsLoader.EndSession | internal/gpu/gds_linux.go:208-227 | one session less; if no session and no entry is left, the driver is shut down, table, retains and all, and otherwise it is not touched |
| GdsLoader.GdsLoader.AttachPersistent | internal/gpu/gds_linux.go:441-477 | one more import by the client, or refused |
| GdsLoader.GdsLoader.DetachPersistent | internal/gpu/gds_linux.go:479-529 | one import of the client less, if it has one |
| GdsLoader.GdsLoader.UnloadPersistent | internal/gpu/gds_linux.go:531-583 | one load less; the last one frees unless imported, and a failed free keeps the entry; if the freed entry was the last and no session is left, the driver is shut down; a cancelled context changes nothing |
| GdsLoader.GdsLoader.LoadInSession | internal/gpu/gds_linux.go:333-398 | succeeds exactly when the device can be activated and the whole file is read; the key gains an entry with this buffer or, if it has one, a load, and then, as after a failure, this buffer is freed if frees work |
| GdsLoader.GdsLoader.LoadPersistent | internal/gpu/gds_linux.go:292-398 | the three critical regions run without interruption give the load function's state, whose outcomes are the next row |
| DriverUse.LoadOutcomes | internal/gpu/gds_linux.go:292-398 | a resident key gains a load and nothing else moves; another gains one entry, one load, with the buffer, size and flag of the read; a failure changes no entry and leaves no buffer if frees work; sessions are as before; working codes with room in the table always succeed |
| DriverUse.UnloadKeepsNeeded | internal/gpu/gds_linux.go:531-583 | an unload never closes the driver while a session or another buffer needs it |
| LoaderRuns.BuffersAreEntriesPlusInFlight | internal/gpu/gds_linux.go:292-398 | in every interleaving, outstanding buffers are map entries plus loads in flight plus buffers whose own free failed, each once |
| LoaderRuns.NoLeakWhenFreesSucceed | internal/gpu/gds_linux.go:374-392 | the last kind is empty as long as frees of losing duplicates succeed |
| LoaderRuns.LoadCountIsLoadsMinusUnloads | internal/gpu/gds_linux.go:292-398 | an entry's load count is successful loads minus successful unloads, and the entry exists exactly while that is positive |
| LoaderRuns.CallsFindDriverOpen | internal/gpu/gds_linux.go:333-355 | every read and free under a session, and every free of an entry, finds the driver open and its context retained |
| LoaderRuns.NoShutdownUnderUse | internal/gpu/gds_linux.go:208-227 | whenever a step takes a device's context away, no call holds a session there and no buffer is resident there |
| LoaderRuns.LastUseShutsDown | internal/gpu/gds_linux.go:208-227 | in every run, a step that ends the last session with no entry left, or frees the last entry with no session left, leaves no device up and the driver closed unless closing fails |
| LoaderRuns.TableNeverBreaks | internal/gpu/gds_linux_bridge.c:128-167 | in every state of every run the context table is within its 128 places, lists no device twice, and every device in it is retained |
| LoaderRuns.RetainsAreTable | internal/gpu/gds_linux_bridge.c:50-167 | over every run whose shutdown lookups work, the retains not yet given back are exactly one for each device in the table |
| LoaderRuns.LoadAlone | internal/gpu/gds_linux.go:292-398 | the steps of one load, taken with no other call in between, are one LoadPersistent |
| LoaderContents.Read | internal/gpu/gds_linux.go:333-355 | the device read with the loader's check of total against size: a read it accepts filled its buffer with the file |
| LoaderContents.ResidentBuffersHoldFiles | internal/gpu/gds_linux.go:292-398 | in every interleaving every resident entry's buffer holds exactly the bytes of its file |
| AttachRace.AttachesAllOrNothing | internal/app/gpu.go:1078-1133 | any number of attaches racing with the unload of the last allocation: all attach and nothing is freed, or all are rejected |
| AttachRace.OneSideWins | internal/app/gpu.go:889-943 | with frees that work, exactly one side wins |
| AttachRace.UnloadAloneWins | internal/app/gpu.go:889-943 | with nobody attaching and working frees, the unload succeeds |
| Attachments.ImporterCountsExplained | internal/app/gpu.go:1300-1336 | in every interleaving a client's import count on a shard is its session entries plus pending detaches plus attach progress plus what was lost, and importerRefs the sum over clients |
| Attachments.NothingLost | internal/app/gpu.go:1116-1133 | nothing is lost while no client re-attaches over a live session or attach |
| Attachments.LostExactlyWhen | internal/app/gpu.go:1116-1133 | after any run from the start, every import count equals sessions plus pending detaches plus attach progress if and only if the run overwrote no session entry that held imports and cancelled no detach with some pending |
| Attachments.NoFreeUnderSession | internal/gpu/gds_linux.go:531-583 | a shard a live session holds is never freed |
| Attachments.AttachAlone | internal/app/gpu.go:1078-1133 | an attach of resident shards, alone, opens its session and adds one import per shard |
| Attachments.DetachAlone | internal/app/gpu.go:1262-1281 | a detach, alone, takes its session away and gives back exactly the imports the session held |
| PersistentLoad.LoadPersistent | internal/gpu/gds_linux_bridge.c:329-684 | for every sequence of driver answers: writes stay inside the buffer; rc 0 with the file's size as total means the buffer is the file; strict success means every byte came through cuFileRead; the direct flag is set exactly when the host loop did not run; everything acquired is given back once, except the returned buffer on success. A file that is not empty is loaded whole unless a call fails that nothing can stand in for, or in strict mode one of the direct path; and directly unless one of either kind does |
| PersistentLoad.Setup | internal/gpu/gds_linux_bridge.c:380-417 | opens, sizes and allocates, holding only what succeeded; the descriptor is direct exactly while direct reads are to be tried |
| PersistentLoad.RegisterDirect | internal/gpu/gds_linux_bridge.c:418-464 | registers file and buffer, or in non-strict mode falls back to a plain descriptor |
| PersistentLoad.ReadAligned | internal/gpu/gds_linux_bridge.c:465-500 | the aligned loop writes the file's prefix, each byte through cuFileRead, with offsets and lengths in whole blocks, on a direct descriptor and into a registered buffer; it reads all whole blocks unless a read falls short |
| PersistentLoad.ReadTail | internal/gpu/gds_linux_bridge.c:520-596 | the tail goes through a 4 KiB block that is freed again on every path |
| PersistentLoad.ReadThroughHost | internal/gpu/gds_linux_bridge.c:606-640 | the host loop copies a prefix of the file from the start, from a plain descriptor, and all of it unless a call fails |
| PersistentLoad.Cleanup | internal/gpu/gds_linux_bridge.c:658-683 | gives back everything still held, once |
| ShardLoops.LoadShards | internal/app/gpu.go:748-830 | all of the first maxShards shards gain one count per listing, or the allocation map is what it was but for the loads whose rollback could not free them; with valid names, working codes and room in the context table it succeeds |
| ShardLoops.RollbackLoads | internal/app/gpu.go:748-765 | unloading in reverse, on past failures, leaves the earlier map and one load of exactly each key whose only load could not be freed; the map is restored when nothing is stuck |
| ShardLoops.NothingStuck | internal/app/gpu.go:748-765 | the rollback leaves nothing behind if and only if every free it needs works: a shard that was resident before, or is listed earlier, needs none |
| ShardLoops.AttachShards | internal/app/gpu.go:1078-1114 | succeeds exactly when every shard is resident and no call finds its context cancelled; then every shard gains one import per listing, and otherwise the importer multisets are exactly what they were |
| ShardLoops.UnloadShards | internal/app/gpu.go:912-943 | one load less on each shard up to the first that is refused: context cancelled, absent, last load imported, or its free failing |
| ShardLoops.DetachShards | internal/app/gpu.go:1262-1281 | one import of the client less on each shard up to the first at which the context is found cancelled |
| GpuService.GpuService.PersistentLoad | internal/app/gpu.go:716-860 | on failure the allocation map is what it was but for loads that could not be freed, and the lease list is restored unless the store refuses the rollback's put; on success the first MaxShards shards are counted and the holder leased; it fails only on a record that is not READY, an unnamed holder, a failing code, a full context table or a refusing store |
| GpuService.GpuService.Allocate | internal/app/gpu.go:343-491 | for published models and by reference, with a store that may refuse any put or deletion. Success: the record is there, each of the first MaxShards shards has one load more and no other, and the holder its lease; load counts equal live allocations exactly when MaxShards does not cut the shards short. Failure: only on an unverified path, a model not READY, an unnamed holder, a failing code, a full context table or a refusing store; the holder's lease goes unless the store refuses; load counts equal live allocations exactly when the rollback freed all it had to and the allocation record went. Imports stay, other holders keep their leases, and every other live allocation keeps its own unless a failing call gives back a lease it stands on |
| GpuService.GpuService.LoadAllocation | internal/app/gpu.go:421-447 | the allocation record and its loads come together or not at all, unless MaxShards limits the load, a rollback cannot free, or the store refuses the deletion |
| GpuService.GpuService.Load | internal/app/gpu.go:544-592 | each of the first MaxShards shards of a live allocation gains a load and no other does, or none if it fails and its rollback is clean; so it breaks the equality of load counts and allocations exactly when it succeeds or its rollback is not clean |
| GpuService.GpuService.JoinLease | internal/app/gpu.go:716-737 | the record of a READY model takes the holder's lease, and no other lease moves; refused exactly for an unnamed holder, a model not READY or by the store |
| GpuService.GpuService.RollBackLease | internal/app/gpu.go:748-770 | the rollback of a failed load gives back exactly the lease list before it |
| GpuService.GpuService.UndoLease | internal/app/gpu.go:402-447 | the lease of a failed allocation goes unless the store refuses, and every other holder's stays; live allocations keep their leases exactly when none of the model has that holder |
| GpuService.DropKeepsHolders | internal/app/gpu.go:1508-1528 | dropping a lease leaves every live allocation its lease if and only if none of the model stands on it |
| GpuService.DeallocateKeepsHolders | internal/app/gpu.go:945-970 | the same for an unload, counting only the allocations that stay |
| GpuService.SharedHolderLosesLease | internal/app/gpu.go:945-970 | two allocations of one model under one holder: unloading the first leaves the second without a lease |
| GpuService.GpuService.Prune | internal/app/gpu.go:1300-1336 | exactly the expired sessions go; each import they cover is given back once, and no load count and no other import moves |
| GpuService.GpuService.AttachClient | internal/app/gpu.go:1050-1151 | without a live allocation, a verified path or a client it changes nothing. Otherwise the expired sessions go, and on success the client's session covers the first maxShards shards of the model, all for 0, with one import more on each of them; every other import is as expiry left it, and all are on failure; while load counts fit, it fails exactly on a cancelled context |
| GpuService.GpuService.Heartbeat | internal/app/gpu.go:1153-1212 | extends a live session, also when the context is found cancelled afterwards and the answer is an error; touches nothing else |
| GpuService.GpuService.DetachClient | internal/app/gpu.go:1214-1298 | the expired sessions go and the client's session; its imports go one each up to the shard at which the context is found cancelled, and every other import is as expiry left it; the imports then stay explained exactly when none was detached or the client counts its first shard more often than each of those left over |
| GpuService.GpuService.UnloadAllocation | internal/app/gpu.go:867-970 | refused while its holder has no lease, any session of the model on the device is live or a shard is refused; the first shards, up to that one, lose one load each and no other does. Load counts then equal live allocations exactly when no shard was unloaded, and with imports explained only a cancelled context or a failing free can stop it later. Otherwise allocation, loads and lease go together, and the other live allocations keep their leases exactly when none has the same holder; when the store refuses the lease or the deletion, the loads are gone and the allocation stays |
| GpuService.GpuService.UnloadModel | internal/app/gpu.go:907-943 | the loop alone: load counts fit the allocations exactly when it unloaded nothing, and fit them without this one exactly when it unloaded all |
| GpuService.CancelledDetachStrandsAllocation | internal/app/gpu.go:1262-1281 | a model of two shards, attached by one client, detached under a context cancelled after the first: the next unload frees the first shard and is refused at the second, and from then on always at the first |
| GpuService.GpuService.CountSessions | internal/app/gpu.go:1338-1351 | zero exactly when no session of the model on the device is left |
| Residency.ResidentWhileLive | internal/app/gpu.go:867-953 | a shard is resident on a device exactly while some allocation of its model lives there |
| Residency.LoadKeepsLoads | internal/app/gpu.go:771-846 | a whole-model load with its allocation keeps counts equal to live allocations |
| Residency.UnloadKeepsLoads | internal/app/gpu.go:912-953 | an unload with its allocation does too |
| Residency.UnloadCounts | internal/app/gpu.go:912-943 | an unload of some shards takes one load of each and of no other |
| Residency.StoppedUnload | internal/app/gpu.go:912-943 | an unload that stops before shard n: load counts equal live allocations if and only if n is 0, and equal them without this one if and only if n is all |
| Residency.MissingLoads | internal/app/gpu.go:912-970 | an allocation whose shards are unloaded but whose record stays leaves counts that do not agree |
| Residency.LimitedLoad | internal/app/gpu.go:771-775 | a load under MaxShards fits its allocation if and only if the limit does not cut the shards short |
| Residency.WalkCounts | internal/app/gpu.go:771-846 | a load under MaxShards adds one load to each of the first MaxShards shards, to all for 0, and to no other |
| Residency.LimitedLoadIsNotUnloaded | internal/app/gpu.go:912-943 | after a load that MaxShards cut short, of a model not resident before, an unload of the allocation is refused at the first shard beyond the limit, whatever its context and codes |
| Residency.ExtraLoads | internal/app/gpu.go:748-770 | loads no allocation stands for, from a rollback that could not free or a second load, fit only when there are none |
| Residency.OpenKeepsImports | internal/app/gpu.go:1078-1133 | an attach with its session keeps the bounds: every shard a session covers is counted for its client, and the first shard at least as often as any other, more often than one the session leaves out |
| Residency.CloseKeepsImports | internal/app/gpu.go:1300-1336 | a session that ends with all its shards detached keeps those bounds |
| Residency.StoppedDetach | internal/app/gpu.go:1262-1281 | a session removed with only its first n shards detached keeps those bounds if and only if n is 0 or the client counts its first shard more often than each shard left over |
| TokenCache.TokenTextInjective | internal/app/runtime_bundle_token.go:10-13 | the sequence number can be read back from the token, so different numbers give different tokens |
| TokenCache.Cache.Issue | internal/app/runtime_bundle_token.go:15-44 | a new token with its prefix and expiry; indexes stay inverse, at most the limit lives, issued equals live plus evicted; only expired tokens go, and the oldest beyond the limit, and never a token newer than all others |
| TokenCache.Cache.Resolve | internal/app/runtime_bundle_token.go:46-67 | answers exactly for a live unexpired token, never for a revoked allocation; the second expiry check is not reached; hits and misses are counted |
| TokenCache.Cache.Revoke | internal/app/runtime_bundle_token.go:69-91 | exactly the tokens of the trimmed allocation id go, from both indexes, and are counted |
| TokenCache.Cache.CleanupExpired | internal/app/runtime_bundle_token.go:93-110 | exactly the expired tokens go, and are counted |
| TokenCache.Cache.Delete | internal/app/runtime_bundle_token.go:112-125 | the token leaves both indexes and no empty set stays |
| TokenCache.Cache.EnforceLimit | internal/app/runtime_bundle_token.go:127-168 | down to the limit, none dropped being younger than a survivor |
| TokenCache.InverseDelete | internal/app/runtime_bundle_token.go:112-125 | deleting keeps the two indexes exact inverses |
| TokenCache.InverseInsert | internal/app/runtime_bundle_token.go:34-42 | inserting does too |
| TokenCache.NewestStays | internal/app/runtime_bundle_token.go:127-168 | a token newer than all others is not evicted by the limit |
| TokenCache.Cache.Limit | internal/app/runtime_controls.go:56-62 | the configured limit, or 1024 where none is configured |
| OldestFirst.Candidates | internal/app/runtime_bundle_token.go:138-157 | all entries, each once, oldest first |
| OldestFirst.SurvivorsAreYounger | internal/app/gpu_tensor_map.go:236-250 | what went is older than anything that stayed, or as old with the smaller key |
| OldestFirst.DropOldest | internal/app/gpu_tensor_map.go:222-250 | drops exactly so many of the oldest |
| TensorParse.OffsetsPassExactly | internal/app/gpu_tensor_map.go:302-317 | the wrapped 64-bit comparisons accept exactly the offsets that are in range over the integers, and then nothing has wrapped |
| TensorParse.ParseShard | internal/app/gpu_tensor_map.go:252-336 | accepted exactly when the file has room for the length field, a header of at most 128 MiB lies in it, and every tensor's two offsets are in order and inside; then each named tensor once, by name, with its true place, length, type, shape and shard |
| TensorParse.ShardTensorsMean | internal/app/gpu_tensor_map.go:252-336 | the same of the function the parser is proved against |
| TensorParse.BuildTensors | internal/app/gpu_tensor_map.go:163-181 | all weight shards in order, or refused |
| TensorParse.ModelTensorsAppend | internal/app/gpu_tensor_map.go:163-181 | the tensors of two lists of shards are those of the first and then those of the second, and one refused shard refuses them all |
| TensorParse.ModelTensorsOfOne | internal/app/gpu_tensor_map.go:163-181 | the tensors of one shard are those of its file, if its name is valid |
| TensorCache.Clone | internal/app/gpu_tensor_map.go:143-150 | an equal copy that shares nothing, shapes included |
| TensorCache.Cache.Probe | internal/app/gpu_tensor_map.go:152-161 | a hit returns a fresh copy of what a parse would give |
| TensorCache.Cache.Publish | internal/app/gpu_tensor_map.go:193-210 | a lost race returns a copy of the winner and counts a hit; otherwise the snapshot goes in, as many as the limit needs go out, none of them younger than one that stays, and inserts equal entries plus evictions |
| TensorCache.Cache.GetOrBuild | internal/app/gpu_tensor_map.go:152-211 | with any other lookups in between, the result is what a fresh parse of all the model's shards gives, or nothing exactly when one is refused, and shares nothing with the cache; the key is cached afterwards, and a key already cached is a hit that changes no entry |
| TensorCache.Cache.Evict | internal/app/gpu_tensor_map.go:213-250 | as many of the oldest as the limit needs, counted |
| TensorCache.TensorMap | internal/app/gpu_tensor_map.go:24-141 | each descriptor of the caller's copy has its shard's handle, or none, and is otherwise the parsed one; the cache still holds the parse |
| TensorCache.SetHandles | internal/app/gpu_tensor_map.go:114-118 | every tensor gets its shard's handle and nothing else of the cache or the slice changes |
| Base64.DecodeB64 | platform/k3s/pytorch/native/oci2gds_torch_native.cpp:262-289 | the loop returns what the accumulator function says, with 32-bit wrap-around |
| Base64.LowBits | platform/k3s/pytorch/native/oci2gds_torch_native.cpp:278-279 | wrap-around never reaches the bits that are read out |
| Base64.DecodeUndoesEncode | platform/k3s/pytorch/native/oci2gds_torch_native.cpp:262-289 | for every byte sequence, reading the padded text back gives the bytes |
| Base64.OtherCharacters | platform/k3s/pytorch/native/oci2gds_torch_native.cpp:262-289 | characters outside the alphabet are skipped, the padding ends the text, and an underscore reads as a slash |
| Base64.ReadHandle | internal/gpu/gds_linux.go:418-436 | the handle the client reads is the handle the loader exported |
| Chunked.DecodeChunkedBody | platform/k3s/shared/daemon_client_common.py:127-150 | the loop terminates and returns what decoding from the start gives, errors included |
| Chunked.SizeReadBack | platform/k3s/shared/daemon_client_common.py:135-138 | a size line of any case, leading zeros, padding and extensions reads as its value |
| Chunked.DecodeChunk | platform/k3s/shared/daemon_client_common.py:135-149 | one whole chunk gives its payload, CRLF in it or not |
| Chunked.DecodeUndoesEncode | platform/k3s/shared/daemon_client_common.py:127-150 | every well-formed chunked body decodes to the concatenation of its chunks |
| Chunked.AcceptedIsEncoded | platform/k3s/shared/daemon_client_common.py:127-150 | conversely, every body that is accepted is a chunked encoding |

## Left out

- Registry protocol, authentication, retries and error classes: a fetched profile, or a failure with its reason, is an argument of Ensure; lint, disk-space and artifact-type refusals are one such failure, and last-error texts are names.
- HTTP daemon, CLI, configuration, JSON and YAML: plumbing over libraries; parsed structures are the inputs.
- Model-id, path and symlink containment checks: models are keyed by distinct keys with distinct paths, so those branches are not modelled.
- Creation and last-access times, durations and the sweep of old temporary directories in Recover: nothing reads them back.
- Deleting or appending to a journal can fail without the source noticing; such failures are assumed away.
- ModelService.Service.Ensure: does not model PENDING for a caller that does not wait, which is a step of ServiceRuns instead.
- Gc.GC: run alone, so a busy lock is never met; concurrent GC is covered by ServiceRuns, one candidate at a time.
- Persistent load and unload in ServiceRuns are their record and lease steps; their loader side is in ShardLoops and GpuService, which are sequential.
- AttachRace.OneSideWins: no context is cancelled and no session expires during the race.
- GpuService: calls run one at a time; calls in between those of another are covered by Attachments, AttachRace and LoaderRuns on the loader's side.
- LoadFile and gds_read_file: the benchmark read is modelled only as a session, or as a bare activation once its session is gone; its copy loop repeats the persistent one.
- gds_release_device_if_unused has no caller, and the loader's `active` map is never read for a decision.
- The reference counts LoadPersistent reports after it unlocks, and the unsynchronised session check of LoadFile: nothing is claimed.
- acquire_imported_allocation and release_imported_allocation in the native client repeat the loader's double-checked count.
- safetensors JSON decoding, tensor-map filters by shard and count, and the handle that an export hands out (its activation is a step of LoaderRuns).
- TensorCache.Cache.GetOrBuild: after a miss the counters are stated per critical section only, since others count in between.
- TokenCache.Cache.Issue: the clock reading is an argument, so a token is only promised to survive its own insertion if the clock has advanced; clearing the cache in Recover is not modelled.
- Chunked.DecodeChunkedBody: a size token that is not all hexadecimal digits is answered with a separate outcome, because Python also accepts signs, underscores and a prefix there.
- Python runtimes, torch and TensorRT bindings, shell, Helm and manifests: glue over libraries that are not part of this model.
