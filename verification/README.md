# Verified model of verl's weight transfer, offloading, resharding and batching

This project models the small algorithms and protocols of verl in Dafny and proves what they
promise. Tensors are sequences (of bytes, rows or elements), hardware and transports are guarded
steps, and floats are reals.

* **Weight transfer.** Named tensors are packed greedily into buckets (`Packing`, `Buckets`,
  `Filling`, `Handing`). `Nixl*` is the point-to-point chain as a state machine over all
  interleavings: a READ lands byte by byte in any order while every rank runs its own loop over
  two buffers. `Nccl*` is the broadcast: the two loops over their buffers, and the lock-step of all
  ranks as a state machine.
* **Activation offloading** (`Offload*`). The asynchronous handler as a class, proved against a
  store that keeps every tensor under its tag, which the synchronized handler is proved against too.
* **Checkpoint resharding** (`Shards`, `Qkv`, `Numbering`, `SaveFiles`). The search for pipeline
  shard sizes, taking grouped QKV matrices apart whole or from tensor-parallel shards, and layer
  and file numbers.
* **Batches and padding** (`Dispatch`, `Unpad`, `SpLoss`). Padding, chunking, mapping and
  concatenating a batch; removing and restoring token padding and its gradients; the two loss
  paths of the SFT trainer.
* **Arithmetic cores** (`MemoryBuffers`, `ImageZoom`, `GroupStats`).

`Arith`, `RealArith`, `Basics` and `Torch` (`torch.chunk`) are shared helpers.
`dafny verify dfyconfig.toml` checks everything.

## What the code does and its documentation does not say

* Two weights of one name in one bucket: the later one replaces the metadata of the earlier, which
  is lost (`Buckets.DuplicateNameLosesTensor`).
* A receiver views each slice of its byte buffer as the weight's own type, which `view(dtype)`
  refuses unless the slice starts at a multiple of the item size. Weights of mixed types can be packed
  to other offsets, and then the receivers raise (`Buckets.MisalignedTensorFails`). Delivery holds
  exactly when neither this nor a repeated name happens; weights of one type are always aligned
  (`Buckets.OneDtypeAligns`).
* With one rollout rank the NIXL topology is never built (`NixlTopology.TopologyIsChain`).
* `get_notification` assigns to its own argument while it polls; with notifications of two agents
  in one poll it can return the wrong agent's (`NixlAgents.WrongAgent`; exactly when, in
  `NixlAgents.RightAgentIff`). In the chain only one agent notifies.
* The pipeline search promises sizes as uniform as possible. It minimises the largest size, but may
  leave a much smaller one, or find nothing although splits exist
  (`Shards.SearchIsNotAlwaysUniform`; exactly when, in `Shards.UniformIff`).
* The merge of tensor-parallel shards is right exactly when the shards divide the query groups
  (`Qkv.MergeRightIff`). Otherwise it fails, as with more shards than groups, or goes through and is
  wrong (`Qkv.UnevenShardsMergeWrong`).
* A pipeline chunk without layers takes up a layer number of its own (`Numbering.NumberingIsOnto`).
* `cu_seqlens` is right exactly for 0/1 masks (`Unpad.CuSeqlensMatchIff`), and the backward pass of
  gathering is a gradient exactly for distinct indices (`Unpad.AdjointIff`).
* A valid bounding box with an aspect ratio near 100 and room to grow can be refused after rounding
  (`ImageZoom.RefusedThoughItFits`; exactly when, in `ImageZoom.RefusedIff`).

## Model

| member | source | states |
|---|---|---|
| Packing.PackKeepsOrder | verl/checkpoint_engine/nccl_checkpoint_engine.py:240-291 | the buckets laid end to end are the weights: nothing lost, repeated or reordered |
| Packing.PackFits | verl/checkpoint_engine/nccl_checkpoint_engine.py:244-271 | if every weight fits a bucket, no bucket is overfull |
| Packing.PackIsOptimal | verl/checkpoint_engine/nccl_checkpoint_engine.py:240-291 | no order-preserving partition into buckets that fit has fewer buckets |
| Packing.PackBucketBound | verl/checkpoint_engine/nccl_checkpoint_engine.py:240-291 | two consecutive buckets together exceed the bucket size, so their number is linear in the bytes |
| Packing.PackCountMonotone | verl/checkpoint_engine/nccl_checkpoint_engine.py:244-265 | a fuller open bucket costs at most one bucket more, never fewer |
| Buckets.MetaShape | verl/checkpoint_engine/nccl_checkpoint_engine.py:273-278 | the dictionary of a bucket names exactly its weights, stays inside its bytes, and has an entry for each exactly when names are distinct |
| Buckets.MetaLayout | verl/checkpoint_engine/nccl_checkpoint_engine.py:273-280 | with distinct names the entries are contiguous, in order and disjoint |
| Buckets.UnpackRestores | verl/checkpoint_engine/nccl_checkpoint_engine.py:331-337 | viewing the slices of a buffer by its dictionary succeeds and returns the bucket, exactly when its names are distinct and each tensor starts at a multiple of its item size |
| Buckets.TransferRestores | verl/checkpoint_engine/nccl_checkpoint_engine.py:240-353 | a whole transfer returns the weight sequence exactly when no bucket holds a name twice and every tensor starts at a multiple of its item size |
| Buckets.UnitAligns | verl/checkpoint_engine/nccl_checkpoint_engine.py:273-337 | weights whose bytes are multiples of a unit that every item size divides are aligned in buckets of any size |
| Buckets.OneDtypeAligns | verl/checkpoint_engine/nccl_checkpoint_engine.py:273-337 | so weights of one type always are |
| Buckets.MisalignedTensorFails | verl/checkpoint_engine/nccl_checkpoint_engine.py:336 | a byte and a float, of distinct names, that no receiver can unpack |
| Buckets.DuplicateNameLosesTensor | verl/checkpoint_engine/nccl_checkpoint_engine.py:273-280 | a concrete transfer that loses a weight |
| Filling.FillKeeps | verl/checkpoint_engine/nixl_checkpoint_engine.py:410-421 | filling in a weight keeps buffer, dictionary and offset those of the open bucket of the packing |
| Filling.ClosesBucket | verl/checkpoint_engine/nixl_checkpoint_engine.py:389-408 | a bucket that is closed is the next bucket of the greedy packing, and the rest packs on from an empty one |
| NcclTransfer.SendWeights | verl/checkpoint_engine/nccl_checkpoint_engine.py:235-291 | fails exactly when a weight does not fit; otherwise broadcast k carries bucket k, and the buffer of a pending broadcast is never written |
| NcclTransfer.ReceiveWeights | verl/checkpoint_engine/nccl_checkpoint_engine.py:303-353 | takes part in every broadcast once and hands out every entry in order, whatever the buffer in flight holds; fails exactly when an entry is not aligned |
| NcclTransfer.TransferDelivers | verl/checkpoint_engine/nccl_checkpoint_engine.py:235-353 | what is sent can be received and viewed, and is the weights, exactly when no bucket holds a name twice and every tensor is aligned |
| NcclLockstep.StepInv | verl/checkpoint_engine/nccl_checkpoint_engine.py:43-93 | every step of every rank keeps the lock-step invariant |
| NcclLockstep.FireCarriesBucket | verl/checkpoint_engine/nccl_checkpoint_engine.py:74-84 | when collective k completes all ranks are in broadcast k, with bucket k in the source buffer and its metadata everywhere |
| NcclRuns.Lockstep | verl/checkpoint_engine/nccl_checkpoint_engine.py:74-84 | over every run all ranks issue the same number of broadcasts, the k-th of bucket k |
| NcclRuns.BufferSafety | verl/checkpoint_engine/nccl_checkpoint_engine.py:256-265 | no step writes the buffer a pending broadcast reads, or one that tensors are handed out from |
| NcclRuns.FinishedFits | verl/checkpoint_engine/nccl_checkpoint_engine.py:244-271 | the sender fills in only weights that fit a buffer, and is done only when all of them do |
| NcclRuns.LaunchedBufferHoldsAnything | verl/checkpoint_engine/nccl_checkpoint_engine.py:322-329 | from the launch of a broadcast on, the buffer it writes may hold any bytes |
| NcclRuns.Delivery | verl/checkpoint_engine/nccl_checkpoint_engine.py:303-353 | no assertion fails; every receiver hands out a prefix of the delivery; one that is done has handed out all of it and met only aligned entries; one that raised met another |
| NcclRuns.AlignedNeverRaises | verl/checkpoint_engine/nccl_checkpoint_engine.py:331-353 | no receiver ever raises when every entry is aligned |
| NcclRuns.Progress | verl/checkpoint_engine/nccl_checkpoint_engine.py:86-93 | no reachable unfinished state in which no receiver has raised is stuck |
| NcclRuns.RunsEnd | verl/checkpoint_engine/nccl_checkpoint_engine.py:224-353 | every step uses up a budget fixed by the weights, so every run ends |
| NcclRuns.MaximalRunsDeliver | verl/checkpoint_engine/nccl_checkpoint_engine.py:224-353 | a run that cannot go on has finished exactly when every entry is aligned, and delivered the weights exactly when also no bucket holds a name twice |
| NcclRuns.EveryRunCanFinish | verl/checkpoint_engine/nccl_checkpoint_engine.py:224-353 | every run can be continued until every rank is done, if every entry is aligned, and otherwise until a receiver raises, and never until all are done |
| NixlAgents.Agent.ReadMessage | verl/checkpoint_engine/nixl_checkpoint_engine.py:122-126 | returns the first unread message of the agent asked for; no message of any agent is lost or reordered |
| NixlAgents.Agent.GetNotification | verl/checkpoint_engine/nixl_checkpoint_engine.py:128-134 | computes the polling loop with its reassigned variable; no notification of any agent is lost or reordered |
| NixlAgents.WaitsForOne | verl/checkpoint_engine/nixl_checkpoint_engine.py:128-134 | if only one agent notifies, as in the chain, the agent waited for is the one read |
| NixlAgents.ReadsFromLastPolled | verl/checkpoint_engine/nixl_checkpoint_engine.py:128-134 | the reader takes the fewest polls that leave it an agent to read from, and reads from the last agent of the last of them that was not empty |
| NixlAgents.AgentRead | verl/checkpoint_engine/nixl_checkpoint_engine.py:128-134 | when every polled agent has sent something, the agent read is the one waited for, if its queue was not empty, or else the last agent of the first poll that was not empty |
| NixlAgents.RightAgentIff | verl/checkpoint_engine/nixl_checkpoint_engine.py:128-134 | so the right agent is read exactly when its queue was not empty or it comes last in that poll |
| NixlAgents.WrongAgent | verl/checkpoint_engine/nixl_checkpoint_engine.py:131-134 | one poll of two agents that returns the other agent's notification |
| Nixl.RelayCarriesOwnKey | verl/checkpoint_engine/nixl_checkpoint_engine.py:160-162 | a relayed message carries the relaying rank's key and descriptor, because the received ones were popped |
| NixlInvariant.StepInv | verl/checkpoint_engine/nixl_checkpoint_engine.py:365-513 | every step of every rank and of the transport keeps the chain's invariant; a rank raises only on an entry that is not aligned |
| NixlRuns.WritesAreAll | verl/checkpoint_engine/nixl_checkpoint_engine.py:420-492 | only filling and landing bytes write buffers |
| NixlRuns.BufferSafety | verl/checkpoint_engine/nixl_checkpoint_engine.py:387-492 | over every run no step writes a buffer the next rank may be reading, or that tensors are handed out from |
| NixlRuns.FinishedIsNotRead | verl/checkpoint_engine/nixl_checkpoint_engine.py:511-513 | over every run a rank that is done is not being read from any more and reads nothing |
| NixlRuns.BytesLandInAnyOrder | verl/checkpoint_engine/nixl_checkpoint_engine.py:205-228 | the bytes of a READ may land in any order, with one result |
| NixlRuns.FinishedFits | verl/checkpoint_engine/nixl_checkpoint_engine.py:387-408 | rank 0 fills in only weights that fit a buffer, and is done only when all of them do |
| NixlRuns.Delivery | verl/checkpoint_engine/nixl_checkpoint_engine.py:435-513 | no assertion or lookup fails; every rank hands out a prefix of the delivery; one that is done has handed out all of it, which is rank 0's weights exactly when no bucket holds a name twice, and met only aligned entries; one that raised met another |
| NixlRuns.AlignedNeverRaises | verl/checkpoint_engine/nixl_checkpoint_engine.py:474-509 | no rank ever raises when every entry is aligned |
| NixlRuns.MessagesAreTheForwarders | verl/checkpoint_engine/nixl_checkpoint_engine.py:150-203 | a waiting message carries the previous rank's own key and a buffer of it that holds the bucket |
| NixlRuns.Progress | verl/checkpoint_engine/nixl_checkpoint_engine.py:392-513 | no reachable unfinished state in which no rank has raised is stuck, by induction along the chain |
| NixlTermination.StepCheaper | verl/checkpoint_engine/nixl_checkpoint_engine.py:365-513 | every step uses up part of a budget |
| NixlTermination.RunsEnd | verl/checkpoint_engine/nixl_checkpoint_engine.py:365-513 | no run is longer than the budget at its start |
| NixlTermination.MaximalRunsDeliver | verl/checkpoint_engine/nixl_checkpoint_engine.py:365-513 | a run that cannot go on has every rank done exactly when every entry is aligned, and rank 0's weights delivered on each exactly when also no bucket holds a name twice |
| NixlTermination.EveryRunCanFinish | verl/checkpoint_engine/nixl_checkpoint_engine.py:365-513 | every run, wherever it has got to, can be continued until every rank is done, if every entry is aligned, and otherwise until a rank raises, and never until all are done |
| NixlTopology.TopologyIsChain | verl/checkpoint_engine/nixl_checkpoint_engine.py:282-325 | with two or more rollout ranks the ranks form a chain that every assertion accepts; with one the group is never built |
| NixlTopology.AcceptsIff | verl/checkpoint_engine/nixl_checkpoint_engine.py:293-322 | a worker accepts exactly the neighbours of its place in a chain |
| OffloadWindow.BuildWindowMap | verl/utils/activation_offload.py:248-257 | the loop computes (N/n)(i+1) - 1 + min(i+1, N mod n) |
| OffloadWindow.WindowGap | verl/utils/activation_offload.py:248-257 | consecutive windows are N/n or N/n + 1 layers apart |
| OffloadWindow.WindowIncreasing | verl/utils/activation_offload.py:248-257 | windows strictly increase |
| OffloadWindow.WindowEnds | verl/utils/activation_offload.py:248-257 | the last window closes at the last layer |
| OffloadWindow.WindowLate | verl/utils/activation_offload.py:248-257 | group i's window closes at layer i or later, and later than that if some layer is not offloaded |
| OffloadMemory.KeyIsInjective | verl/utils/activation_offload.py:35-37 | over disjoint live storages one key means one place of one storage |
| OffloadMemory.LiveTensorsAgree | verl/utils/activation_offload.py:35-37 | tensors of one key and size hold the same elements |
| OffloadInvariant.CoherentOverStorages | verl/utils/activation_offload.py:306-312 | so one host copy for each key is enough, when the storages of one group do not overlap; later groups may reuse their memory |
| OffloadInvariant.HostedGroupsAreComplete | verl/utils/activation_offload.py:319-345 | with n < N a group goes to the host only after all its pushes |
| OffloadInvariant.ReloadableIff | verl/utils/activation_offload.py:355-371 | reloading a group cannot fail exactly when its tensors of one key have one size |
| Offload.AsyncHandler.constructor | verl/utils/activation_offload.py:228-261 | an empty handler with the window map |
| Offload.AsyncHandler.TensorPush | verl/utils/activation_offload.py:263-283 | puts the tensor under the next tag of the group, failing exactly when the tag is taken; in a forward pass it never is, and the push is that of the simple store |
| Offload.AsyncHandler.TensorPop | verl/utils/activation_offload.py:285-296 | succeeds exactly when the tag is held as a tensor, which it is in its group's turn, and returns the pushed value |
| Offload.AsyncHandler.BulkOffloadGroup | verl/utils/activation_offload.py:298-317 | replaces a group's tensors by key and shape, with one host copy for each key |
| Offload.AsyncHandler.BulkReloadGroup | verl/utils/activation_offload.py:355-371 | brings a group back from its copies; fails exactly when a copy has another size |
| Offload.AsyncHandler.SynchronizeForward | verl/utils/activation_offload.py:319-345 | frees and offloads what is due; the window lookup fails only beyond the last layer |
| Offload.AsyncHandler.OnGroupCommitForward | verl/utils/activation_offload.py:347-352 | commits as the simple store does, below the last layer |
| Offload.AsyncHandler.OnGroupCommitBackward | verl/utils/activation_offload.py:373-395 | commits back as the simple store does; fails exactly below the first layer or when the due reload fails |
| OffloadReference.SynchronizedHandler.TensorPush | verl/utils/activation_offload.py:195-208 | the synchronized handler pushes as the simple store does, to the host exactly for the first groups and tensors to be offloaded; it fails exactly when the tag is taken, in a forward pass never |
| OffloadReference.SynchronizedHandler.TensorPop | verl/utils/activation_offload.py:210-218 | and pops what was pushed |
| OffloadReference.SynchronizedHandler.OnGroupCommitBackward | verl/utils/activation_offload.py:167-170 | and commits back as it does, above the first layer |
| OffloadRun.Replay | verl/utils/activation_offload.py:263-395 | over every legal run nothing fails and every pop answers as the simple store does |
| OffloadRun.EndsWhereItBegan | verl/utils/activation_offload.py:373-395 | when the simple store is back at its start, group and counters are 0 and every map is empty |
| OffloadRun.CompleteRunIsReset | verl/utils/activation_offload.py:347-395 | every legal run that has committed back to the first group and popped every tag has brought the store back to its start |
| OffloadRun.Iterate | verl/utils/activation_offload.py:263-395 | so a complete iteration answers as the simple store does and leaves the handler as it was before it |
| OffloadRun.AtMostTwoGroupsOnDevice | verl/utils/activation_offload.py:503-543 | as used, with tags popped before their group is left, only the current group and the one before it hold device tensors, at any point of any run |
| OffloadRun.GroupsOnDevice | verl/utils/activation_offload.py:503-543 | without that, also later groups with tags still to be popped |
| OffloadRun.KwargsRoundTrip | verl/utils/activation_offload.py:437-452 | unpacking packed arguments returns them, also without keywords |
| Shards.Candidates | verl/model_merger/megatron_model_merger.py:81-94 | the loop collects exactly the middle sizes that work, in increasing order |
| Shards.GetDynamicPipelineShards | verl/model_merger/megatron_model_merger.py:57-98 | fails exactly on bad arguments or when ceil(L/pp)(pp-2) > L-2; otherwise pp positive sizes that sum to L, ceil(L/pp) in the middle, and the last rank at most one more than the first |
| Shards.BestSplitIsBest | verl/model_merger/megatron_model_merger.py:64-66 | no split of L over pp ranks has a smaller largest rank than the one returned |
| Shards.UniformIff | verl/model_merger/megatron_model_merger.py:64-98 | the sizes differ by at most one exactly when L mod pp is 0 or at least pp - 2 |
| Shards.SearchIsNotAlwaysUniform | verl/model_merger/megatron_model_merger.py:57-98 | concrete inputs where the split is not uniform, or none is found though one exists |
| Qkv.TakeApartInterleaved | scripts/converter_hf_to_mcore.py:155-160 | taking apart the interleaved matrix returns Q, K and V |
| Qkv.SplitTensors | verl/model_merger/megatron_model_merger.py:330-354 | succeeds exactly when the rows fall into equal groups, with the results of taking them apart |
| Qkv.SplitIsInverse | verl/model_merger/megatron_model_merger.py:330-354 | the results are the only ones whose interleaving is the matrix |
| Qkv.RoundTrip | scripts/converter_hf_to_mcore.py:155-168 | splitting the converter's matrix returns Q, K and V for all head counts, group counts and head sizes |
| Qkv.MergeAcrossTp | scripts/legacy_model_merger.py:529-558 | succeeds exactly when every shard's chunks can be cut by the first shard's sizes, and puts the parts end to end |
| Qkv.MergeIsSplit | scripts/legacy_model_merger.py:529-558 | merging the shards equals splitting the whole, for every tp that divides the groups |
| Qkv.MergeRightIff | scripts/legacy_model_merger.py:529-558 | for shards of equal size of a matrix of distinct rows the merge goes through and equals splitting the whole exactly when tp divides the groups |
| Qkv.UnevenShardsMergeWrong | scripts/legacy_model_merger.py:541-549 | a tp that does not divide the groups and a merge that is wrong |
| Numbering.MergeStateDicts | verl/model_merger/megatron_model_merger.py:358-420 | a rank's merge puts its chunks' layer parameters under renumbered keys, and every other parameter under its own name, the last of one name staying |
| Numbering.MergeAllRanks | scripts/legacy_model_merger.py:609-659 | a layer parameter of pipeline rank p and virtual stage v ends up under its own layer plus the layers of all stages before v and, within v, of all ranks before p |
| Numbering.ChunkMerged | scripts/legacy_model_merger.py:616-657 | the merged dictionary holds every entry of every chunk under that key, with its value |
| Numbering.OthersKept | verl/model_merger/megatron_model_merger.py:381-405 | a parameter of no layer is in the result exactly when some chunk holds its name, unchanged, with the value of the last chunk that does |
| Numbering.NothingLost | scripts/legacy_model_merger.py:631-657 | every layer parameter ends up under its global layer, none overwritten |
| Numbering.NothingAdded | scripts/legacy_model_merger.py:631-657 | every layer parameter of the result comes from a chunk |
| Numbering.GlobalLayersDistinct | scripts/legacy_model_merger.py:633-657 | two layers never get one global number |
| Numbering.NumberingIsOnto | scripts/legacy_model_merger.py:633-657 | every number up to the number of layers is used exactly when no chunk without layers precedes one with layers |
| Numbering.RanksCoverOnce | verl/model_merger/megatron_model_merger.py:359-384 | every layer is produced by exactly one rank of the distributed merge |
| SaveFiles.SaveRank | verl/model_merger/megatron_model_merger.py:428-457 | a rank writes the files of its own layers, one a layer below 30 layers and two from 30 on, and its index sends every key to the one file that holds it |
| SaveFiles.KeyInOnePart | verl/model_merger/megatron_model_merger.py:439-440 | the key split puts every key in exactly one part |
| SaveFiles.FilesOnce | verl/model_merger/megatron_model_merger.py:431-453 | every file number from 1 to the total is written by exactly one rank |
| SaveFiles.FilesInRange | verl/model_merger/megatron_model_merger.py:431-453 | and no other number is written |
| SaveFiles.SaveAll | verl/model_merger/megatron_model_merger.py:428-465 | over all ranks the files are numbered without a gap, the gathered index sends each key to a file of the last rank that holds it, and no other file holds the key exactly when no other rank does |
| SaveFiles.LayerKeyHeldOnce | verl/model_merger/megatron_model_merger.py:358-384 | no two ranks of the distributed merge produce a parameter of one layer |
| SaveFiles.SaveMerged | verl/model_merger/megatron_model_merger.py:358-465 | so every parameter of a layer is in exactly one file, the one the index names |
| Dispatch.PadToDivisor | verl/protocol.py:73-98 | pads to the next multiple; row i of the result is row i mod the length |
| Dispatch.Concat | verl/protocol.py:927-972 | the rows of the parts, one after the other, tensor and object columns aligned |
| Dispatch.ChunkData | verl/protocol.py:875-914 | refuses a batch that does not divide evenly; otherwise chunk i is slice i, objects cut where tensors are |
| Dispatch.Unpad | verl/protocol.py:101-105 | drops the rows at the end |
| Dispatch.DispatchToWorkers | verl/protocol.py:73-105 | padding, chunking, mapping, concatenating and unpadding is mapping the rows, for any number of workers |
| Dispatch.GenerateAll | verl/trainer/main_generation.py:95-142 | every chat gets its own answers, one a sample, in order, each made from the row the chat has in its own batch, padded to that batch |
| Unpad.NonzeroIs | verl/utils/npu_flash_attn_utils.py:115 | the indices are the selected positions, strictly increasing |
| Unpad.IndexPut | verl/utils/npu_flash_attn_utils.py:58-66 | a fresh buffer of zeros with the rows written at their indices |
| Unpad.PadAfterUnpad | verl/utils/npu_flash_attn_utils.py:81-129 | removing and restoring padding zeroes exactly what the mask does not select |
| Unpad.UnpadAfterPad | verl/utils/npu_flash_attn_utils.py:81-129 | restoring and removing padding is the identity |
| Unpad.RowOccupiesRange | verl/utils/npu_flash_attn_utils.py:113-117 | row b's tokens occupy exactly the range between its two entries of cu_seqlens |
| Unpad.CuSeqlensMatchIff | verl/utils/npu_flash_attn_utils.py:112-117 | cu_seqlens ends at the number of tokens exactly for 0/1 masks |
| Unpad.Adjoint | verl/utils/npu_flash_attn_utils.py:22-74 | each backward pass is the dot-product adjoint of its forward pass, for distinct indices |
| Unpad.AdjointIff | verl/utils/npu_flash_attn_utils.py:35-49 | and only for distinct indices |
| SpLoss.PathsAgree | verl/trainer/fsdp_sft_trainer.py:386-455 | the two loss paths agree if every counted token and the one before it are attended |
| SpLoss.AgreeIff | verl/trainer/fsdp_sft_trainer.py:386-455 | and they agree for all tokens, logits and losses only then |
| MemoryBuffers.PaddedNumel | verl/utils/memory_buffer.py:55-59 | the least multiple of 128 bits that holds the elements |
| MemoryBuffers.PlacementIsSound | verl/utils/memory_buffer.py:45-141 | every view starts on a 128-bit boundary and ends inside the buffer the sizing pass asked for |
| MemoryBuffers.PlacesDisjoint | verl/utils/memory_buffer.py:101-141 | no two views overlap |
| MemoryBuffers.TotalNumels | verl/utils/memory_buffer.py:81-93 | the sizing pass asks for what the placement takes |
| MemoryBuffers.BuildMemoryBuffer | verl/utils/memory_buffer.py:72-98 | one buffer for each type, of that size, none shared |
| MemoryBuffers.BuildReferences | verl/utils/memory_buffer.py:101-114 | no lookup or assertion fails; every view returned lies in the buffer of its parameter's own type, on a 128-bit boundary and after those before it, and holds its parameter after all copies |
| MemoryBuffers.BuildFromModule | verl/utils/memory_buffer.py:72-114 | sizing and placing together keep every parameter, in views of the right buffers |
| ImageZoom.TwoStepIsOneFactor | verl/tools/image_zoom_in_tool.py:242-257 | the two scaling steps are one factor, min(28/min side, W/w, H/h), at least 1 |
| ImageZoom.ClampIsIntersection | verl/tools/image_zoom_in_tool.py:219-223 | a point lies in the clamped box exactly when it lies in the box and in the image |
| ImageZoom.ClampIsLargest | verl/tools/image_zoom_in_tool.py:219-223 | so the clamped box contains exactly the boxes inside both |
| ImageZoom.ValidIff | verl/tools/image_zoom_in_tool.py:180-203 | a box is valid exactly when its sides are positive and neither is over 100 times the other |
| ImageZoom.PlaceIsNearest | verl/tools/image_zoom_in_tool.py:259-276 | of all places inside the image the box goes to the one whose centre is nearest to the old centre |
| ImageZoom.GrownCovers | verl/tools/image_zoom_in_tool.py:259-279 | the grown box stays in the image and covers the clamped one |
| ImageZoom.MaybeResize | verl/tools/image_zoom_in_tool.py:205-297 | a returned box lies in the image, covers the clamped box, has a ratio of at most 100 and sides of at least 28; which box it is; and exactly when none is returned |
| ImageZoom.GrownAccepted | verl/tools/image_zoom_in_tool.py:278-297 | a grown box is accepted when its longer side is at most 2798 |
| ImageZoom.RefusedIff | verl/tools/image_zoom_in_tool.py:239-297 | a valid small box with room to grow is refused exactly when its shorter side then starts at a whole number and its longer side rounds to more than 2800 |
| ImageZoom.RefusedWithoutRoomIff | verl/tools/image_zoom_in_tool.py:239-297 | one without room, exactly when some side rounds to less than 28 |
| ImageZoom.RefusedThoughItFits | verl/tools/image_zoom_in_tool.py:278-297 | a valid box with room to grow that is refused |
| GroupStats.OnePassIsTwoPass | verl/utils/groupwise.py:209-212 | the one-pass numerator is the sum of squared deviations from the mean, so not negative |
| GroupStats.CountsAddUp | verl/utils/groupwise.py:205 | the counts of the groups add up to the number of scores |
| GroupStats.GroupMeanStd | verl/utils/groupwise.py:191-223 | refuses unequal lengths; otherwise, for every group up to the highest index, mean and unbiased variance, or eps if that is more; 0 and 1 for at most one score |
| GroupStats.StatMeans | verl/utils/groupwise.py:208-221 | mean times count is the sum; variance times (count - 1) is the sum of squared deviations, unless the variance is eps and that sum smaller |

## Left out

- ZeroMQ, NIXL, NCCL, CUDA streams, Ray and autograd: guarded steps and events. Messages and notifications of one pair of agents arrive in order; PUB/SUB subscribers are connected before the first publication; a collective completes for all ranks at once.
- Notification keys are arbitrary numbers; nothing proved needs them to differ.
- The chain machine has one rank notifying another, so it takes notifications in order; the queues by agent are in `NixlAgents`.
- Timing, bandwidth logging, dtype casts and float rounding; square roots: `GroupStats` returns the square of the standard deviation, with `eps` applied to the variance as in the code.
- Offload.AsyncHandler.BulkOffloadGroup: copies to the host happen within the commit; that a copy not yet finished may still be read is stream synchronization, which the model does not have.
- Offloaded tensors are contiguous, as the handler's `view` on reload needs; overlapping tensors of one key must have one size, which `OffloadRun.Legal` asks of the reload that is due.
- SpLoss.PathsAgree: the model gives one logit for a position on both paths, and padding, slicing, gathering and unpadding for sequence parallelism are the identity; `verl.utils.ulysses` is not part of this model.
- Dispatch.DispatchToWorkers: automatic padding of uneven batches and the merging of `metrics` in `concat` are not modelled; a worker is a function of a row, so a sampled answer is one of `generate(n, row)`.
- A batch has tensor columns; one with object columns only takes another branch of `chunk` and `len`. Group indices and mask entries are natural numbers, as their documentation says.
- `repeat`, `sample_level_repeat`, `unfold_column_chunks`, batch-dimension folding, serialization and futures of `DataProto`: easy members next to the dispatch law.
- Parameter names are structured keys with a layer number; the mapping tables, LoRA names, gate and up projections, expert partitions and the element counts of the converter are left out.
- Numbering.RanksCoverOnce: assumes each rank's chunks are consecutive layers, as the distributed merge itself does.
- SaveFiles.SaveAll: which file holds which keys; tensor contents, `total_size` and the JSON around the index are left out.
- `hccl_checkpoint_engine.py` repeats the NCCL algorithm. Trainers, configuration, checkpoint files, tools, search clients and evaluation scripts are plumbing.
