# Verified models of vLLM's host-side algorithms

This project models, in Dafny, the parts of the vLLM repository whose behaviour is
not evident from reading one branch, and proves what they keep over all inputs and
all runs.

| area | files | what is proved |
|---|---|---|
| virtual-memory allocator | `ChunkPlan`, `GpuDriver`, `Chunks`, `AllocatorState`, `AllocatorRuns`, `HandleReuse`, `AllocatorScenarios`, `CumemAllocator`, `CudaAllocator` | the C++ code, call by call against a driver that may fail any call, refines a state machine; every run of that machine, whatever state an allocation is freed, put to sleep or woken in, conserves address ranges, handles, mappings and heap cells; exact conditions say when memory is lost and when undoing harms another allocation |
| graph partitions | `StagedRuns`, `PartitionSignature`, `PartitionOutputs` | the reverse pass computes the least set of names from which the partitions can run forward, exactly when that run misses no input, and that each partition takes and returns just what is needed |
| build-time report | `TimeShares`, `NinjaReport`, `NinjaLog`, `BuildReport` | an independent definition of fair time sharing, the event sweep that computes it, the log reader that cuts out one build, and exactly which logs can be reported on |
| logprobs | `FlatView`, `LogprobsContainer` | six parallel lists with index ranges behave like a list of dictionaries under appending, extending and slicing |
| streamed outputs | `MergeOutputs`, `RequestOutputs` | in-place merging is an associative operation on values, with the exact condition under which grouping matters |
| bad words | `BadWords`, `NoBadWordsProcessor` | the runs a mask allows are exactly those that stay free of bad words |
| model inspection | `RangeText`, `ModuleInspection`, `ChildGroups` | printed layer ranges read back as exactly the layers |
| small arithmetic | `Int8Quant`, `LockstepChunks`, `Retry` | quantisation error, token conservation over chunks, and backoff with cleanup |

Code that updates objects or buffers step by step is modelled by classes and loops, each
proved against a specification function; the properties of that function are lemmas.
`Options` and `Sequences` hold what several models share. The driver, the network and the log are parameters: an oracle decides which driver call
fails and which address it returns, a script decides what each download attempt meets.
Logits, times, scales and timeouts are exact reals.

## Where the code falls short of its description

Each of these is proved, with the condition under which the code does meet the description
and, in the lemma named last, an input on which it does not.

* A `my_malloc` that fails after the Python callback leaves its entry in `pointer_to_data`.
  The table lists exactly the living allocations if and only if no such entry is outstanding
  (`TableIsAliveAndStale`, `EntryLeftBehind`).
* The error code is sticky: after a failed `my_malloc`, every later one fails until an exported
  sleep or wake call clears it (`ErrorIsSticky`). That wake call fails, and the first handle it
  creates backs nothing: `create_and_map` tests the old error after its first creation and rolls
  back only the chunks before it (`HandleLeaks`). Only a sleep or a free of the same allocation,
  before it is woken once more, still releases that handle.
* Waking an allocation that is awake, as `sleep()`, `wake_up(["weights"])`, `wake_up()` does, fails
  with no error pending, since the range is taken. The handles it creates are rolled back but their
  numbers stay in the cells, where they replace those of the mapped handles: the next sleep or free
  loses the memory (`RewokenLeaks`). On a driver that fails nothing but queries, creations, mappings
  and new reservations, a run loses nothing if and only if no wake creates memory while an error is
  pending or on an allocation that is awake (`NothingIsLostIff`). On others, a refused access in
  `my_malloc` leaves the memory and the mappings in place (`CumemAllocator.Allocator.CreateAndMap`).
* Freeing a sleeping allocation gives its range back but leaves an error pending. It also releases,
  like putting it to sleep again, whatever lives under its old handles by then. That keeps the
  accounting if and only if no other awake allocation is mapped to one of them (`MyFree`, `Sleep`,
  `HarmBreaks`), and never goes wrong in a run if and only if the driver never grants a mapped
  allocation a handle that another one's cells still name (`HarmlessIff`, `HandleReused`).
* On the CUDA path a failure leaves the device as it was if and only if the driver refuses to create
  the memory: after a creation, neither a failing mapping nor a refused access releases the handle
  (`CudaAllocator.Allocator.CreateAndMap`, `MappingFailureLeaks`).
* `my_free` gives the reservation back only when Torch passes the aligned size; with any other
  it keeps it and leaves an error behind (`MyFree`).
* A forward run of the partitions from the names the pass leaves unmet finds all its inputs when
  no partition drops a name that is still unmet without returning it, and none has to return a
  name without storage; when names are returned before they are taken, exactly then
  (`ForwardRunNeverMisses`). Last usages that are really last rule the first reason out
  (`LastUseSuffices`; `DroppedEarly` shows it otherwise). The second remains: the pass keeps
  names without storage out of reads, writes and outputs, but not out of the freed names it adds
  to the inputs (`FreedWithoutStorage`).
* A slice of `FlatLogprobs` with a negative step takes an empty stretch of entries. It reads
  correctly only when one position, or empty positions, were selected (`SliceReadsRightIff`,
  `ReversedSliceMisreads`, `ReversedPairMisreads`).
* Merging `a` with the merge of `b` and `c` differs from merging left to right exactly when `c`
  brings logprobs to an index whose first output in `b` and `c` has none, while in `a`, `b` and `c`
  together no index that starts without logprobs is brought any (`GroupingMatters`,
  `GroupingDiffers`).
* `SummarizeEntries` raises on an empty list, on a target that ends before it starts or has no
  outputs, and on a build of length zero, by which it divides; for non-negative times the length is
  zero exactly when all targets start and end at one instant. It raises on nothing else
  (`SummarizeEntries`, `StopFindsStart`, `NoLengthIff`, `ReversedTargetIsMissing`,
  `InstantTargetHasNoLength`). So a log is reported on exactly when its last build has records, none
  of them is reversed, and they do not all lie at one instant (`BuildReport.Summarize`).
* Quantised levels survive the cast to int8 or uint8 for every row exactly when `bits` is at
  most eight (`StoredExactly`). The asymmetric zero point survives its int32 cast and
  negation exactly when the smallest element lies within about 2^31 scales of zero
  (`ZeroPointFits`, `ZeroPointOverflows`).

## Model

| member | source | states |
|---|---|---|
| ChunkPlan.MemcreateChunkSize | csrc/cumem_allocator.cpp:24-42 | the configured size is used exactly when it is positive and its byte count fits 64 bits, otherwise the default; always a positive whole number of megabytes |
| ChunkPlan.AlignUpIsLeast | csrc/cumem_allocator.cpp:341 | the aligned size is the least multiple of the granularity not below the request, and less than one granule above it |
| ChunkPlan.PlanChunks | csrc/cumem_allocator.cpp:366-391 | the chunk-size buffer: all sizes positive, all but the last one full chunk, and together exactly the aligned size |
| ChunkPlan.ChunksAreGranular | csrc/cumem_allocator.cpp:366-391 | every chunk size, the last included, is a multiple of the granularity |
| ChunkPlan.OffsetMonotone | csrc/cumem_allocator.cpp:160-179 | chunk windows at prefix-sum offsets follow one another without overlap |
| GpuDriver.FirstErrorSplit | csrc/cumem_allocator.cpp:63-73 | the status that is kept is the first failure: later calls never replace it |
| GpuDriver.Driver.Issue | csrc/cumem_allocator.cpp:145-187 | a driver call: only legal calls succeed, a legal call fails only when the oracle says so, and a failed call changes nothing |
| Chunks.MapsInside | csrc/cumem_allocator.cpp:160-179 | all chunk mappings lie inside the reserved range of their allocation |
| Chunks.UnmapStep | csrc/cumem_allocator.cpp:219-226 | one more unmap takes away what is mapped at its chunk, and is legal exactly if something is |
| Chunks.UnmappedRest | csrc/cumem_allocator.cpp:219-226 | unmapping all chunks of a mapped allocation takes away exactly its mappings |
| Chunks.NotAtChunks | csrc/cumem_allocator.cpp:219-226 | where nothing is mapped, unmapping takes nothing away and does not succeed throughout |
| Chunks.ReleaseStep | csrc/cumem_allocator.cpp:228-233 | one more release takes away what lives under its handle, and is legal exactly if something does |
| Chunks.ReleasedRest | csrc/cumem_allocator.cpp:228-233 | releasing the handles of backed chunks takes away exactly their memory |
| AllocatorRuns.RunsConserve | csrc/cumem_allocator.cpp:321-751 | in every state of every run from the empty allocator, failed wakes of awake allocations and repeated sleeps included: reserved ranges are exactly the living allocations and pairwise apart; mapped ranges are exactly the chunks of the awake ones, all open to access, and so are the live handles, but for the memory that is lost and counted as such; no handle or heap cell is shared or left over |
| AllocatorRuns.StepConserves | csrc/cumem_allocator.cpp:321-751 | each of my_malloc (successful, refused, undone), my_free and sleep (of any living allocation) and wake (successful, undone, failing on an old error) keeps all of that |
| AllocatorRuns.ErrorIsSticky | csrc/cumem_allocator.cpp:336-353 | while an error is pending no my_malloc or wake takes effect and nothing comes alive, until a sleep, or a wake that fails for it, clears it |
| AllocatorRuns.NothingIsLostIff | csrc/cumem_allocator.cpp:150-159 | along a run no memory is lost, and every awake allocation can be undone through its own cells, if and only if no wake creates memory while an error is pending or on an awake allocation |
| AllocatorRuns.TidyStep | csrc/cumem_allocator.cpp:95-193 | of all operations exactly those wakes break that |
| AllocatorRuns.SoundUndoing | csrc/cumem_allocator.cpp:195-261 | an awake allocation whose cells name its handles is undone without error, takes all its own memory and nobody else's |
| AllocatorRuns.HarmBreaks | csrc/cumem_allocator.cpp:228-233 | undoing an allocation whose cells name a handle of another awake one leaves that one mapped to memory that is gone |
| HandleReuse.HarmlessIff | csrc/cumem_allocator.cpp:228-233 | along a run no cell names a handle another allocation is mapped to, if and only if no mapped allocation is granted a handle that another living one's cells name |
| HandleReuse.HarmlessStep | csrc/cumem_allocator.cpp:321-751 | of all operations exactly such a my_malloc or wake ends that |
| AllocatorRuns.TableIsAliveAndStale | vllm/device_allocator/cumem.py:147-176 | the Python table is the living allocations plus the entries of undone my_malloc calls, so it is exact if and only if none is outstanding |
| AllocatorRuns.TupleIsStable | vllm/device_allocator/cumem.py:147-176 | while an allocation lives, its tuple never changes, whatever other calls do |
| AllocatorRuns.SleepThenWakeRestores | csrc/cumem_allocator.cpp:588-751 | sleep gives up all mappings of an allocation, and all its memory if its cells name its handles; a later wake, with anything but its free in between, maps the same ranges at the same address and opens them to access |
| AllocatorScenarios.EntryLeftBehind | csrc/cumem_allocator.cpp:412-446 | a run after which the table lists an address that is not alive |
| AllocatorScenarios.HandleLeaks | csrc/cumem_allocator.cpp:150-159 | a run through a pending error and a sleeping allocation after which a handle backs nothing and the error is gone |
| AllocatorScenarios.RewokenLeaks | vllm/device_allocator/cumem.py:228-241 | a run without any error pending that wakes an awake allocation and then puts it to sleep: its memory stays live and backs nothing |
| AllocatorScenarios.HandleReused | csrc/cumem_allocator.cpp:452-560 | a run after which the cells of a sleeping allocation name the handle of an awake one, so that undoing the first takes the memory of the second |
| CumemAllocator.Allocator.UnmapChunks | csrc/cumem_allocator.cpp:219-226 | every chunk is unmapped once at its offset, whatever the statuses, and the first failure is reported; what was mapped at the chunks is gone, and no failure is reported exactly if every chunk was mapped |
| CumemAllocator.Allocator.ReleaseChunks | csrc/cumem_allocator.cpp:228-233 | every handle is released once, whatever the statuses, and the first failure is reported; what lived under the handles is gone, and no failure is reported exactly if they were distinct and all live |
| CumemAllocator.Allocator.CreateChunks | csrc/cumem_allocator.cpp:150-159 | all chunks are backed by fresh handles, or the device is as before; entered with an error pending it creates at most one handle and leaves it; in any case the cells of the chunks created first name the new handles and no other cell changes |
| CumemAllocator.Allocator.MapChunks | csrc/cumem_allocator.cpp:160-179 | all chunks are mapped at their offsets in a range where nothing was mapped, or all mappings and all created handles are gone again |
| CumemAllocator.Allocator.CreateAndMap | csrc/cumem_allocator.cpp:95-193 | with no error pending: full backing and mapping, open to access, by as many calls as that takes and the grant of access to the whole range as the last, or the same device as before; refused access is the one failure that is not undone; success or not, the cells of the chunks created first name the new handles |
| CumemAllocator.MeetingIsMaps | csrc/cumem_allocator.cpp:180-187 | granting access to the whole range opens exactly the chunks just mapped |
| CumemAllocator.Allocator.CycleReservation | csrc/cumem_allocator.cpp:235-255 | frees and takes again the same range; a different address is given back; nothing else on the device changes |
| CumemAllocator.Allocator.UndoChunks | csrc/cumem_allocator.cpp:216-233 | each chunk unmapped once and each handle released once, in order, keeping the first failure; it takes away what is mapped there or lives under the handles, whoever owns it, and meets no failure exactly if every chunk is mapped and the handles are distinct and live |
| CumemAllocator.Allocator.UnmapAndRelease | csrc/cumem_allocator.cpp:195-261 | the reservation is cycled only if all undoing succeeded; the error code ends as the first failure, 1 for a moved range, or unchanged; what was mapped at the chunks and lived under the handles is gone, and the range stays reserved |
| CumemAllocator.Allocator.ReserveRange | csrc/cumem_allocator.cpp:321-353 | asks for the granularity and then for a range anywhere: a free range of the aligned size, or an error and an unchanged device; it cannot succeed with an error pending |
| CumemAllocator.Allocator.NewEntry | csrc/cumem_allocator.cpp:362-391 | chunk sizes as planned, all multiples of the granularity, and one heap cell per chunk that nothing else uses |
| CumemAllocator.Allocator.MyMalloc | csrc/cumem_allocator.cpp:321-449 | performs exactly one enabled step of the state machine, on any driver unless mapping failed after the callback; null if and only if some call failed, and then only the table and the error code changed; non-null with exactly the aligned size, mapped and open to access |
| CumemAllocator.Allocator.Abandon | csrc/cumem_allocator.cpp:434-446 | after a failure range and heap cells are returned while the table keeps the entry |
| CumemAllocator.Allocator.GiveBack | csrc/cumem_allocator.cpp:549-559 | frees the range if and only if it is passed with its reserved size, and always frees the cells |
| CumemAllocator.Allocator.Reclaim | csrc/cumem_allocator.cpp:536-559 | gives the range back with or without an error, which is left exactly if undoing meets one; the cells go in any case |
| CumemAllocator.Allocator.MyFree | csrc/cumem_allocator.cpp:452-560 | whatever the allocation has been through, given the aligned size it performs the free step and keeps the accounting if and only if its cells name no handle of another awake allocation; given any other size it leaves the reservation and an error behind; in any case every chunk is undone once and what lived under the handles is gone |
| CumemAllocator.Allocator.Sleep | csrc/cumem_allocator.cpp:588-676 | whatever the allocation has been through, performs the sleep step and keeps the accounting under the same condition; raises exactly when an error was pending or undoing meets one, and clears it; a sleeping allocation gives up nothing exactly if none of its old handles is in use |
| CumemAllocator.Allocator.WakeUp | csrc/cumem_allocator.cpp:678-751 | performs a wake step that succeeds if and only if every call did, and never on an awake allocation; a success and, with an error pending, the step that fails and clears the error are steps on any driver; a failed wake renames cells unless its first creation failed |
| CumemAllocator.AwakeHolds | csrc/cumem_allocator.cpp:195-261 | in a conserved state the device holds each awake allocation completely, open to access and exclusively |
| CumemAllocator.AliveIsWhole | csrc/cumem_allocator.cpp:195-261 | in a conserved state undoing any living allocation unmaps what it holds and nothing else, and its range can be given back |
| CumemAllocator.AwakeIsOccupied | csrc/cumem_allocator.cpp:160-179 | nothing can be mapped where an allocation is awake |
| CumemAllocator.ReservationReturns | csrc/cumem_allocator.cpp:434-446 | a range just reserved has nothing mapped in it and can be given back |
| CudaAllocator.Allocator.CreateAndMap | csrc/cumem_allocator.cpp:128-191 | the exact sequence of calls with the fabric fallback; the device ends unchanged if and only if the driver refuses the creation and, where it is tried, the fallback; otherwise the created memory stays, mapped and open to access exactly as the driver grants it, and the error code tells whether it did |
| CudaAllocator.Allocator.CreateHandle | csrc/cumem_allocator.cpp:128-144 | memory is asked for a second time exactly when the fabric was wanted and refused, and it fails exactly if the driver refuses both |
| CudaAllocator.Allocator.UnmapAndRelease | csrc/cumem_allocator.cpp:206-214 | the handle is released only when unmapping succeeded and no error was pending; without error both are gone |
| CudaAllocator.MappingFailureLeaks | csrc/cumem_allocator.cpp:128-148 | a driver on which mapping fails and the created memory stays |
| PartitionSignature.CollectNames | vllm/env_override.py:229-268 | the produced, used and freed names of a partition are the unions over its nodes |
| PartitionSignature.OneSignature | vllm/env_override.py:232-328 | one round of the reverse loop: the signature, a KeyError exactly when an allocated returned name has no node, and the names unmet before the partition |
| PartitionSignature.PartitionSignatures | vllm/env_override.py:192-330 | the whole pass: fails exactly when some round does, otherwise one signature per partition in order, each from the names unmet after it and with its own skip flag |
| PartitionSignature.KnownWhenNodesClosed | vllm/env_override.py:300-309 | no KeyError when outputs have nodes and nodes are closed under real names |
| PartitionSignature.UnmetIsLeast | vllm/env_override.py:206-328 | whatever any successful forward run starts from contains every unmet name that has a node |
| PartitionSignature.RunSucceedsIff | vllm/env_override.py:206-330 | a run from any set of names finds every input and every graph output if and only if each needed name is supplied before, by the start or an earlier partition, and not dropped in between |
| PartitionSignature.ForwardRunNeverMisses | vllm/env_override.py:206-330 | the forward run from the unmet names succeeds if nothing unmet is dropped without being returned and nothing without storage has to be returned; exactly then, when names are returned before they are taken |
| PartitionSignature.AllocatedRunNeverMisses | vllm/env_override.py:206-330 | when graph outputs, freed names and real names have storage, the run from the unmet names, or from any names, succeeds if and only if nothing is dropped early |
| PartitionSignature.LastUseSuffices | vllm/env_override.py:263-297 | when usages marked last are last, nothing is dropped early and the run misses an input only for want of storage |
| PartitionSignature.FreedWithoutStorage | vllm/env_override.py:266-276 | two partitions with correct last usages on which the run misses a freed name without storage |
| PartitionSignature.DroppedEarly | vllm/env_override.py:263-297 | three partitions on which a name freed too early is missed |
| PartitionSignature.SucceedsIsRuns | vllm/env_override.py:299-324 | calling the partitions with their signatures is running their stages |
| StagedRuns.RunsIffSupplied | vllm/env_override.py:206-330 | a run of stages succeeds if and only if every needed name is supplied before and not dropped in between |
| StagedRuns.UnmetRunSucceedsIff | vllm/env_override.py:206-330 | exactly when the run from what the backward pass leaves unmet succeeds |
| StagedRuns.UnmetIsNecessary | vllm/env_override.py:326-328 | no successful run starts from less |
| StagedRuns.SuccessDropsNothingEarly | vllm/env_override.py:326-328 | a run that succeeds, from whatever names, dropped nothing early |
| PartitionSignature.SignatureCovers | vllm/env_override.py:244-309 | every allocated name used and not produced is an input under its real name; inputs are freed or come back as outputs |
| PartitionOutputs.NoStorageIff | vllm/env_override.py:209-230 | a name is without storage exactly if its buffer is, and so is what a mutation output stands for |
| PartitionOutputs.SignatureTakes | vllm/env_override.py:244-313 | the inputs are exactly the nodes some node of the partition reads or writes from outside, under their real names, or frees for an earlier one, each marked by whether it is freed; the constants are exactly the constants so taken |
| PartitionOutputs.OutputsAreWanted | vllm/env_override.py:237-309 | every returned name has storage and is the real name of an input passed on or of a name produced here that is a graph output or an input of a later partition |
| PartitionOutputs.UnmetIsAwaited | vllm/env_override.py:326-328 | a node with storage is unmet exactly if a later call, or the graph at its end, demands it before any call returns it anew |
| PartitionOutputs.OutputsExactly | vllm/env_override.py:237-309 | the returned names are exactly the real names with storage of what is passed on or produced and awaited |
| PartitionOutputs.ProducedOutputIsNeeded | vllm/env_override.py:237-309 | withholding a returned name that is produced here fails every run in which it is not there already |
| TimeShares.SharesAddUp | tools/report_build_time_ninja.py:237-256 | the time charged to all tasks together is exactly the time during which at least one runs |
| TimeShares.BusyIsAllIff | tools/report_build_time_ninja.py:220-256 | the busy time is at most everything from the first event to the last, and all of it exactly when there is no idle gap |
| TimeShares.ShareBounds | tools/report_build_time_ninja.py:74-89 | a task is charged at least nothing and at most its own duration |
| Sequences.SortSorts | tools/report_build_time_ninja.py:223-224 | the sort puts the same elements, each as often as before, in the order of their keys |
| NinjaReport.SortedRecordsAreOrderly | tools/report_build_time_ninja.py:218-228 | after sorting, every target has exactly one start and one stop event |
| NinjaReport.RunningIsRunners | tools/report_build_time_ninja.py:237-255 | the tasks in the running table between two different event times are exactly those whose duration covers the gap |
| NinjaReport.StopFindsStart | tools/report_build_time_ninja.py:248-254 | a stop event finds its target in the table exactly when the target does not end before it starts |
| NinjaReport.ReversedTargetIsMissing | tools/report_build_time_ninja.py:248-254 | a reversed target whose stop comes first and finds nothing running |
| NinjaReport.AllHaveStopped | tools/report_build_time_ninja.py:256 | the running table is empty after the last event |
| NinjaReport.SpanIsLength | tools/report_build_time_ninja.py:209-220 | earliest start and latest end are the first and last event times |
| NinjaReport.CollectRecords | tools/report_build_time_ninja.py:207-220 | the first loop yields both records of every target, the sum of all durations, and the true extremes for non-negative times |
| NinjaReport.Sweep | tools/report_build_time_ninja.py:229-256 | the sweep fails exactly when some target ends before it starts; otherwise every weighted duration is the fair share and their total the busy time |
| NinjaReport.Raise | tools/report_build_time_ninja.py:240-244 | raising the level by the gap over the number of running tasks charges each of them its share of the gap |
| NinjaReport.NoLengthIff | tools/report_build_time_ninja.py:209-220 | earliest start and latest end coincide exactly when all targets start and end at one instant |
| NinjaReport.InstantTargetHasNoLength | tools/report_build_time_ninja.py:284-291 | a single target that starts and ends at the same time leaves a length of zero |
| NinjaReport.FindExtensions | tools/report_build_time_ninja.py:151-195 | no extension is found exactly for a target without outputs |
| NinjaReport.SummarizeEntries | tools/report_build_time_ninja.py:198-291 | fails exactly on no entries, a reversed entry, one without outputs, or a length of zero, which for non-negative times means that everything lies at one instant; otherwise fair shares within bounds, a total equal to the busy time, at most the sum of durations and at most the build length, and equal to that exactly when there is no gap; the two closing figures are the quotients by the length, and without a gap the parallelism is at least one |
| BuildReport.Summarize | tools/report_build_time_ninja.py:317-318 | a log with non-negative times is reported on exactly when its last build has records, none of them ends before it starts, and they do not all lie at one instant; 1000 times the length is the latest end minus the earliest start in milliseconds |
| NinjaLog.GroupedMeaning | tools/report_build_time_ninja.py:132-147 | grouping lists every command once, in first-seen order, with the times of its first record, a thousandth of its milliseconds, and all its outputs once, in order |
| NinjaLog.KeptIsOneBuild | tools/report_build_time_ninja.py:124-143 | the records kept after the last reset have end times that never go back and one pair of times per command, and the first of them contradicts an earlier record |
| NinjaLog.KeptIsGreedy | tools/report_build_time_ninja.py:124-143 | a record joins the kept ones exactly if they form one build together, and starts over otherwise |
| NinjaLog.RecordsInOrder | tools/report_build_time_ninja.py:114-121 | the records are the well-formed lines in order |
| NinjaLog.NamesInOrder | tools/report_build_time_ninja.py:146-147 | the outputs of a command are listed in the order of its records |
| NinjaLog.AddLine | tools/report_build_time_ninja.py:132-147 | one line added to the dictionary of target objects adds one record to the grouping and disturbs no other target |
| NinjaLog.Restart | tools/report_build_time_ninja.py:124-143 | the two resets fire exactly when the record breaks off from the kept ones, and empty the dictionary |
| NinjaLog.ReadTargets | tools/report_build_time_ninja.py:104-148 | the targets describe exactly a contiguous suffix of the well-formed lines: all of them on request, else the records since the last that broke off, in which end times never go back and a command keeps its times; 1000 times the times of a target are the milliseconds of its command's first kept record |
| FlatView.AppendExtendsView | vllm/logprobs.py:63-93 | appending adds exactly one position and changes no other reading |
| FlatView.ReadsItsView | vllm/logprobs.py:110-120 | every position of a valid container reads as its dictionary |
| FlatView.SliceSelects | vllm/logprobs.py:121-133 | a normalised slice selects positions inside the container, or none |
| FlatView.SliceSelectsExactly | vllm/logprobs.py:121-133 | a slice selects the first position within its bounds, in the direction of its step, and from there every one within them a whole number of steps away; none exactly if none is within its bounds |
| FlatView.SliceReadsSelected | vllm/logprobs.py:121-133 | a slice with positive step is valid again, gaps included, and position j reads as the j-th selected position of the original |
| FlatView.StretchReadsAsView | vllm/logprobs.py:121-133 | `[a:b]` reads as positions a to b of the list the container stands for |
| FlatView.SliceReadsRightIff | vllm/logprobs.py:121-133 | a slice reads right if and only if its step is positive, it selects one position, or it selects only empty ones |
| FlatView.ReversedSliceMisreads | vllm/logprobs.py:121-133 | reversing any container of two or more positions whose last is not empty misreads |
| FlatView.ReversedPairMisreads | vllm/logprobs.py:121-133 | a container of two positions with one entry each that reversing misreads |
| FlatView.BranchesAgree | vllm/logprobs.py:175-206 | any run of calls leaves the flat container and the list of dictionaries with the same view, whatever the list lengths, the rank count and repeated tokens |
| FlatView.StepShowsArguments | vllm/logprobs.py:183-206 | a call stores the sampled token with its own rank and the following ones with ranks 1, 2, 3 and so on, as many as are wanted and all argument lists have |
| FlatView.LastEntryWins | vllm/logprobs.py:113-120 | a dictionary holds exactly the tokens of its entries, each with its last entry |
| LogprobsContainer.PutIsUpdate | vllm/logprobs.py:112-120 | rebuilding an ordered dictionary entry by entry keeps one item per token, with the last value |
| LogprobsContainer.FlatLogprobs.Append | vllm/logprobs.py:63-72 | the container gains one position reading as the given dictionary, the empty one for None |
| LogprobsContainer.FlatLogprobs.AppendFast | vllm/logprobs.py:74-93 | the container gains one position: the dictionary of the four lists zipped to the shortest |
| LogprobsContainer.FlatLogprobs.AppendStep | vllm/logprobs.py:175-194 | the flat branch of one call is one step of the common run |
| LogprobsContainer.PositionList.AppendStep | vllm/logprobs.py:195-206 | the list branch of one call is one step of the common run |
| LogprobsContainer.FlatLogprobs.Extend | vllm/logprobs.py:95-98 | extending adds one position per element, in order |
| LogprobsContainer.FlatLogprobs.ExtendFrom | vllm/logprobs.py:95-98 | extending from another container adds its view, position by position |
| LogprobsContainer.FlatLogprobs.GetItem | vllm/logprobs.py:110-120 | an index in range, negative ones from the end, reads as that position's dictionary with one item per token; others raise |
| LogprobsContainer.FlatLogprobs.GetSlice | vllm/logprobs.py:121-133 | raises exactly on a zero step or when no position lies within the bounds; a positive step gives a container that reads as the selected positions, from the first within the bounds, and can be sliced and extended again |
| MergeOutputs.CombineIsAssociative | vllm/outputs.py:154-168 | merging two deltas of one index first, or one after the other, gives the same output |
| MergeOutputs.AddThroughMiddle | vllm/outputs.py:151-173 | an output may be absorbed by the middle operand before or after that is merged itself |
| MergeOutputs.MergeIsAssociative | vllm/outputs.py:145-173 | merging is associative, errors included, whenever the right-hand grouping can be computed |
| MergeOutputs.MergeFailsOnClash | vllm/outputs.py:161-163 | aggregating, indices repeated or not, fails exactly when some output brings logprobs to an index whose first output has none |
| MergeOutputs.GroupingMatters | vllm/outputs.py:145-173 | both groupings agree, errors included, if and only if the later two do not clash, or clash together with the first |
| MergeOutputs.GroupingDiffers | vllm/outputs.py:161-163 | three outputs of one index on which only the left-to-right grouping succeeds |
| MergeOutputs.UniformIsAssociative | vllm/outputs.py:145-173 | with logprobs uniformly present or absent merging the later two never fails and merging is associative |
| MergeOutputs.StreamSumsUp | vllm/outputs.py:145-173 | folding a stream fails exactly on a clash, never on uniform logprobs; otherwise it leaves one output per index, in first-seen order, with all its text, tokens and logprobs and the final state of its last delta |
| MergeOutputs.AggregatingSumsUp | vllm/outputs.py:145-173 | so does aggregating onto outputs of distinct indices: each position sums up what it held and what is added |
| MergeOutputs.ReplacingKeepsLast | vllm/outputs.py:168-173 | without aggregation adding never fails; outputs of distinct indices stay where they are and give way to the last new output of their index, new indices following in first-seen order |
| RequestOutputs.CompletionOutput.MergeIn | vllm/outputs.py:155-168 | the in-place merge of one output is the merge of the values, or the failed assertion |
| RequestOutputs.RequestOutput.AddCompletion | vllm/outputs.py:151-173 | merges into, replaces or appends the output of one index, on distinct objects |
| RequestOutputs.RequestOutput.Add | vllm/outputs.py:145-173 | the object's outputs become the merge of both values and the finished flag is sticky; for outputs of distinct indices it fails exactly on a clash while aggregating, and otherwise leaves one output per index in first-seen order: the sum of its index, or the last one of it |
| BadWords.ContainsAfterAppend | vllm/logits_process.py:66-83 | a word occurs after appending a token exactly if it occurred before or the token completes it at the end |
| BadWords.CleanAfterAppend | vllm/logits_process.py:56-87 | appending keeps the text free of bad words exactly if no word is completed |
| BadWords.RunsAreTheCleanOnes | vllm/logits_process.py:56-87 | from a clean start, whatever the logits of each step, the runs the processor allows are exactly the runs over available tokens that end without a bad word |
| NoBadWordsProcessor.BoundsHold | vllm/logits_process.py:106-113 | the list of invalid ids is empty exactly if all words are in the vocabulary |
| NoBadWordsProcessor.InvalidInOrder | vllm/logits_process.py:106-113 | the invalid ids are listed word by word |
| NoBadWordsProcessor.InvalidInWord | vllm/logits_process.py:106-113 | within a word they are the ids outside the vocabulary, in order |
| NoBadWordsProcessor.CompletesByLength | vllm/logits_process.py:66-83 | a token completes a word exactly if a one-token word bans it or a longer word matches |
| NoBadWordsProcessor.NoBadWordsLogitsProcessor.CheckTokenIdsBounds | vllm/logits_process.py:106-121 | reports exactly the ids outside the vocabulary, in order |
| NoBadWordsProcessor.NoBadWordsLogitsProcessor.InitWordBias | vllm/logits_process.py:89-104 | caches a bias of minus infinity exactly at the one-token words, or raises and caches nothing |
| NoBadWordsProcessor.NoBadWordsLogitsProcessor.AddWord | vllm/logits_process.py:66-83 | after each word the bias is minus infinity exactly where one of the longer words so far is completed |
| NoBadWordsProcessor.NoBadWordsLogitsProcessor.Call | vllm/logits_process.py:56-87 | raises on ids outside the vocabulary and on empty words; otherwise a logit becomes minus infinity exactly where its token would complete a bad word, and all others are returned unchanged |
| RangeText.DigitsParse | vllm/model_inspection.py:51-58 | decimal digits read back as the number |
| RangeText.SplitJoin | vllm/model_inspection.py:58 | splitting the joined text gives the pieces back |
| RangeText.PrintParses | vllm/model_inspection.py:51-58 | any printed list of ranges over non-negative indices reads back as itself |
| ModuleInspection.SortedSorts | vllm/model_inspection.py:46 | the indices in ascending order, each as often as before |
| ModuleInspection.RangesStandFor | vllm/model_inspection.py:44-58 | the ranges of an ascending list expand to exactly that list, duplicates included, and no two neighbours could be joined |
| ModuleInspection.RangesAreUnique | vllm/model_inspection.py:44-58 | any list of ranges in which no neighbours could be joined is what its own expansion is cut into, so there is no other way to print the indices |
| ModuleInspection.CollectRanges | vllm/model_inspection.py:46-58 | the loop prints exactly the ranges of the sorted indices |
| ModuleInspection.FormatIndexRanges | vllm/model_inspection.py:44-58 | the printed text parses, for non-negative indices, to ranges that expand to exactly the sorted indices, none of which could be joined |
| ChildGroups.GroupChildren | vllm/model_inspection.py:104-107 | one group per signature holding exactly its children, in order; together all children |
| ChildGroups.SortedGroupsSorts | vllm/model_inspection.py:110 | the same groups, in order of their first index |
| ChildGroups.Label | vllm/model_inspection.py:111-124 | a group's label reads back as exactly its indices |
| ChildGroups.PrintNumbered | vllm/model_inspection.py:92-124 | the labels of all groups together name every numbered child exactly once, and groups come in the order of their first indices |
| Int8Quant.ScaleIsLeast | vllm/_xpu_ops.py:114-130 | the scale is the least step, not below 1e-5, with which the largest level reaches the whole row |
| Int8Quant.QuantizationError | vllm/_xpu_ops.py:112-142 | the level is in range and dequantises to within half a scale of the input, in both modes, whether or not the scale floor applies, the clamp included |
| Int8Quant.SymmetricNeverClamps | vllm/_xpu_ops.py:119-137 | in the symmetric mode the clamp never changes a rounded value |
| Int8Quant.StoredExactly | vllm/_xpu_ops.py:133-137 | every row survives the cast to the stored type exactly when bits is at most eight |
| Int8Quant.ZeroPointFits | vllm/_xpu_ops.py:129-131 | the cast of the asymmetric zero point to int32 and its negation are exact if and only if the smallest element lies within 2^31 - 1/2 scales of zero |
| Int8Quant.ZeroPointOverflows | vllm/_xpu_ops.py:129-131 | a constant row whose zero point does not fit |
| LockstepChunks.RankShare | vllm/forward_context.py:61-69 | a data-parallel rank with n tokens is charged at least n and fewer than n + sp, and the cumulative counts step by that |
| LockstepChunks.CumSumIsOffset | vllm/forward_context.py:179-184 | the cumulative counts are the prefix sums of the per-rank tokens |
| LockstepChunks.TotalTokens | vllm/forward_context.py:179-184 | over all ranks no token is left out and each rank pads by less than sp |
| LockstepChunks.ComputeChunkedLocalNumTokens | vllm/forward_context.py:72-87 | every sequence-parallel rank gets its own chunk size |
| LockstepChunks.ChunkBounds | vllm/forward_context.py:82-86 | a chunk runs between one and m tokens, never past the rank's tokens, and a single dummy once the rank is done |
| LockstepChunks.TokensConserved | vllm/forward_context.py:72-87 | after any number of chunks a rank has run its first tokens once each, plus one dummy per chunk after it finished |
| LockstepChunks.EnoughChunks | vllm/forward_context.py:72-87 | K chunks with K * m at least t run exactly t + K - ceil(t / m) tokens |
| Retry.Downloader.DownloadOnce | vllm/connections.py:338-360 | one attempt leaves the whole body on disk, or raises and leaves no file, a previous one included |
| Retry.BodyInOrder | vllm/connections.py:338-360 | the body on disk is the chunks one after the other |
| Retry.Downloader.DownloadFile | vllm/connections.py:108-151 | at most max(R, 1) calls, the k-th with timeout base * 4^k, (4^a - 1) / 3 slept after a retried failures, ending like the last attempt with exactly its body on disk or no file; the final assertion is never reached |
| Retry.CallsAgainIff | vllm/connections.py:30-71 | after an attempt there is another exactly if the limit allows it and the attempt timed out, lost its connection, or met a status of 500 or above |
| Retry.CallsAreDetermined | vllm/connections.py:108-151 | the number of calls is settled by what the attempts meet and by the limit |
| Retry.ReturnsIff | vllm/connections.py:108-151 | the decorated call returns exactly when some attempt within the limit delivers after nothing but retryable failures; otherwise its error is not retryable or the limit is used up |
| Retry.MoreRetriesNeverHurt | vllm/connections.py:108-151 | a higher limit makes the same calls whenever the lower one returned |

## Left out

Allocator:

- CumemAllocator.Allocator.WakeUp: when access is refused the state step is not stated, since the code then neither records nor undoes the mapping.
- CumemAllocator.Allocator.MyMalloc: when mapping fails after the callback, the state step is stated for a driver in which only asking for the granularity, creating, mapping and reserving may fail and a hinted address is taken. Host `malloc` and the Python callbacks succeed, and the 64-bit rounding does not wrap. Every failing call is covered by the contracts of the methods it consists of.
- CumemAllocator.Allocator.Abandon: the state step is stated for the same drivers.
- CumemAllocator.Allocator.MyFree: the state step and the condition for keeping the accounting are stated for the same drivers.
- ChunkPlan.MemcreateChunkSize: what `getenv` and `strtoull` make of the environment variable is an input.
- Contexts, device numbers, allocation properties, alignment of the reserved address, error texts, Python tuples and references, the interpreter lock.
- CumemAllocator.Allocator.Sleep: state step and condition are stated for the same drivers, and the tuple belongs to a living allocation. The loops of `CuMemAllocator` over its whole table also pass the tuples of stale entries, whose heap cells have been freed; those loops, CPU backups, tags and `use_memory_pool` are not modelled.
- my_malloc and my_free around the CUDA single-handle path: they add nothing to the chunked ones.

Graph partitions:

- PartitionSignature.PartitionSignatures: real names are final (no chains of renamings) and both argument lists have one length. Symbol inputs and the order inside ordered sets are not modelled.
- Class checks, installation of patches and CUDA path probing.

Build-time report:

- NinjaReport.SummarizeEntries: the build length is stated for non-negative times, as the code uses a negative value for "none yet".
- NinjaReport.FindExtensions: which extension is found, and the grouping by it.
- The header check, numbers that do not parse, missing log files, the half-second warning and all printing.

Logprobs, outputs, bad words:

- LogprobsContainer.FlatLogprobs.ExtendFrom: extending a container from itself does not terminate in the original and is excluded.
- RequestOutputs.RequestOutput.Add: the two requests and their output objects are distinct, as an object merged into itself is doubled; logprobs are compared by view; routed experts, LoRA requests and the conversion of immutable token lists are not modelled.
- NoBadWordsProcessor.NoBadWordsLogitsProcessor.Call: one vocabulary size per object, a single row of logits, and no logit that is plus infinity or not a number.
- Building the processors from a tokenizer.

Model inspection:

- ChildGroups.PrintNumbered: the signature of a child is an input, and only the labels of numbered children are modelled, not the text of the whole tree. Labels of negative indices are printed but not read back, as "-1-3" would be ambiguous.

Arithmetic members:

- Int8Quant.QuantizationError: a width that leaves no positive level, one symmetric bit or none at all, makes the scale divide by zero and is excluded (`UsableBits`); exact reals; the cast of the scale to the input type is not modelled, nor what a zero point outside int32 is cast to.
- LockstepChunks.ComputeChunkedLocalNumTokens: the context managers that set and clear the sizes, and the choice of the number of chunks.
- Retry.Downloader.DownloadFile: the wrapper is modelled where it decorates `download_file`; the asynchronous twin, which has the same branches, the HTTP client, logging and exceptions that are not `Exception` are not. Removing a file succeeds.
