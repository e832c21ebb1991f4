# A verified model of the J313 host tools

The repository boots Windows on a J313 (Apple M1) machine under a modified m1n1.  The
drivers and the hypervisor are C; the host side is a set of protocols written in Python,
with one derived C header.  This project models those protocols in Dafny and proves what
they promise.  `dafny verify dfyconfig.toml` checks all of it.

Each module follows one source component, and takes its form.  Objects whose methods
change fields are classes, loops that advance cursors are methods with invariants, and both
are proved equal to specification functions about which the theorems are stated.  Byte
formats, manifests and expressions are values.

| module | component |
|---|---|
| `Structs`, `Results`, `Texts`, `Ordering`, `Json` | `struct` layouts, `None`/exceptions, `str` methods, `sorted`, `json.loads` |
| `VirtualDisplay`, `FramePublisher` | frames arriving in chunks, and the thread that publishes them |
| `LaunchContract`, `LaunchCompare` | the framed decoder of launch-contract snapshots, and their comparison |
| `AgxLifecycle`, `AgxGate` | who owns the GPU when any call may raise, and the ten-cycle gate above it |
| `RenderBackend`, `RenderGate`, `RenderEvidence`, `Intervals` | the one-shot render qualification and its cold-boot evidence chain |
| `QueueGate` | the one-shot queue qualification around any backend |
| `BootImages` | the two nested boot containers |
| `HangTelemetry` | the progress recorder |
| `HwdataProfile` | the byte string behind a profile's identity |
| `UtilLut` | boolean expressions compiled to lookup tables |
| `PatchLane` | the parser that decides what an untrusted diff may touch |
| `BalancedText`, `CallText` | block, call and argument extraction from source text |

What the code cannot see becomes a parameter: CRC32, SHA-256 and xz are functions (xz
decompression undoes compression), the clock is a real number, and every internal call that
may raise has a fault that says whether it does.  Written files are sequences of the values
written.

## How the main results fit together

* **Frames.** `CompletedWasTransmitted` and `TransmittedCompletes` are the two halves of
  frame assembly: nothing but a transmitted frame comes out, and every transmitted frame
  does.  `FramePublisher` runs the receiver and the worker in any interleaving, one queue
  operation a step, and `PublishedWasTransmitted` carries soundness through to the disk.
  `discarded_publications` is not the number of dropped frames: a lost race counts too.
  `LostRaceCounted` is such a run and `CountersExact` says by how much it differs.
* **Ownership.** `AgxLifecycle` and `RenderBackend` log hardware events next to the flags of
  the backends; "owned" and "live" are read off the log, never off the flags.  The gates
  are then proved against these backends, for every pattern of failures.
* **Evidence.** `Aggregate` succeeds exactly on `Qualified` evidence, which is stated by
  quantifiers over cycles and not by the loops.  Receipts are recorded without asking for a
  moved m1n1 base and validated with it; `RecordedReceiptValid` gives the exact condition.
* **Formats.** Every accepted byte string is characterised: launch records
  (`DecodeIffEncoded`), display chunks (`ParseIffEncoded`), boot images (`ParseIffLaidOut`),
  telemetry payloads (`StatusIffEncoded`, `SampleIffEncoded`), patches (`ParseIffGrammar`).
* **Where the code falls short.**
  * Packing accepts inputs whose image does not parse: `ParsePacked` says exactly which, and
    `MagicPrefixRefused` is one.
  * Profiles whose digests differ in length, or of which one has a value of 2^32-1 bytes where
    the other has none, can share a preimage: `PreimageAmbiguity` says exactly when equal
    preimages come from equal profiles, and `LooseDigestsCollide` is a collision.
  * `util_lut2_invert_source` empties the table for source 2: `InvertSource2Negates` says
    exactly when that is right, and `InvertSource2FailsForA` is a failure.
  * A render backend can be released with a temporary frame left on the disk:
    `RenderReleasedIsClean` and `OverwrittenMeans` say exactly when, and
    `ReleasedWithFileLeft` is such a run.
  * An ordinary second hunk is always rejected (`SecondHunkRejected`); `ParseIffGrammar` is
    the language that is accepted.

## Model

| member | source | states |
|---|---|---|
| Structs.UnpackPack | tools/launch_contract.py:29-31 | for every little-endian layout of integers and byte fields, unpacking returns the packed values |
| Structs.PackUnpack | tools/launch_contract.py:29-31 | and packing the unpacked fields returns the bytes, so the two are inverse bijections |
| VirtualDisplay.ParseIffEncoded | virtual_display.py:126-146 | a message passes the header checks exactly when it encodes a piece of a frame of the configured geometry |
| VirtualDisplay.FrameReceiver.constructor | virtual_display.py:81-109 | a new receiver is idle, with a buffer of the configured size and nothing submitted |
| VirtualDisplay.FrameReceiver.Discard | virtual_display.py:111-114 | a discard forgets the partial frame, counts one chunk and submits nothing |
| VirtualDisplay.FrameReceiver.Accept | virtual_display.py:126-167 | writing into the one reused buffer computes the assembly step: the state, the result, the submitted frame and the counter |
| VirtualDisplay.CompletedWasTransmitted | virtual_display.py:111-167 | after any calls, a completed frame is byte for byte the payloads of the calls immediately before, one frame id, from offset 0 to the end |
| VirtualDisplay.TransmittedCompletes | virtual_display.py:29-39 | any nonempty in-order division of a frame, from any state not mid-frame with its id, completes at the last chunk only, with exactly that frame |
| VirtualDisplay.ReceiverStaysOpen | virtual_display.py:116-167 | between calls the receiver is idle or strictly inside one frame, holding exactly what was transmitted of it |
| FramePublisher.EveryRun | virtual_display.py:169-202 | the joint invariant of reader, queue and worker holds after every interleaving |
| FramePublisher.RetryNeverFull | virtual_display.py:169-186 | the second `put_nowait` never finds the queue full |
| FramePublisher.TakenInOrder | virtual_display.py:188-202 | the worker takes a strictly increasing choice of the completed frames and nothing else |
| FramePublisher.NewestNeverLost | virtual_display.py:169-186 | whenever the reader is idle the newest complete frame is queued or was the last one taken |
| FramePublisher.FramesConserved | virtual_display.py:169-202 | each completed frame is exactly one of published, failed, dropped, queued, in flight or still in the reader's hands |
| FramePublisher.CountersExact | virtual_display.py:180-202 | `discarded_publications` is the dropped frames plus the lost races, and `generation` counts successful publications |
| FramePublisher.LostRaceCounted | virtual_display.py:180-186 | a run in which nothing is dropped and one discard is counted |
| FramePublisher.PublishedWasTransmitted | virtual_display.py:227-248 | each published frame is what some consecutive calls transmitted |
| LaunchContract.Decoder.Feed | tools/launch_contract.py:50-78 | one call drains the buffer: the snapshots or the first error, what stays buffered, what was seen |
| LaunchContract.DecodeRecords | tools/launch_contract.py:103-107 | one feed and a finish |
| LaunchContract.SplitInvariance | tools/launch_contract.py:50-78 | from any decoder state every split of a stream ends with the same error, seen set and residue as the whole, and the same snapshots when there is no error |
| LaunchContract.SplitInvarianceFresh | tools/launch_contract.py:46-82 | from a new decoder even the empty split agrees |
| LaunchContract.InspectEncoded | tools/launch_contract.py:110-124 | an encoded record is taken whole, whatever follows it |
| LaunchContract.DecodeIffEncoded | tools/launch_contract.py:84-124 | a byte string decodes to a list exactly when it is the concatenated encoding of that list, every record filed under its payload's own identity, none repeated |
| LaunchCompare.CompareIffEqual | tools/launch_contract.py:199-224 | no difference is reported exactly when the two documents are equal in Python's sense |
| LaunchCompare.CompareSymmetric | tools/launch_contract.py:199-224 | swapping the documents reports as many differences |
| LaunchCompare.CompareSound | tools/launch_contract.py:199-224 | each difference names a path where one document lacks a value or the two values differ |
| AgxLifecycle.M1n1AgxBackend.constructor | tools/agx_m1n1_backend.py:67-94 | a new backend owns nothing |
| AgxLifecycle.M1n1AgxBackend.Prepare | tools/agx_m1n1_backend.py:109-132 | the new state for a failure at each internal call |
| AgxLifecycle.M1n1AgxBackend.Start | tools/agx_m1n1_backend.py:134-141 | start is requested before it may raise, and is then taken for started |
| AgxLifecycle.M1n1AgxBackend.Beat | tools/agx_m1n1_backend.py:143-163 | a heartbeat needs running firmware and changes nothing |
| AgxLifecycle.M1n1AgxBackend.Stop | tools/agx_m1n1_backend.py:230-235 | stopping, or keeping the started flag when it raises |
| AgxLifecycle.M1n1AgxBackend.Reset | tools/agx_m1n1_backend.py:237-257 | ownership goes only when every step of the reset is done |
| AgxLifecycle.InvAlways | tools/agx_m1n1_backend.py:62-260 | the flags agree with the hardware after every run of calls |
| AgxLifecycle.ReleasedIsClean | tools/agx_m1n1_backend.py:237-260 | over every run, released implies firmware stopped, no AGX object, and both roots cleared since the last clock request |
| AgxLifecycle.LostIffConstructionFailed | tools/agx_m1n1_backend.py:109-132 | a call loses the backend exactly when a preparation fails after clocks were requested |
| AgxLifecycle.LostForever | tools/agx_m1n1_backend.py:109-132 | from there no calls change anything and release is never claimed |
| AgxLifecycle.ReleasableIffNotLost | tools/agx_m1n1_backend.py:62-260 | after any run, some further calls reach release exactly when the backend is not lost |
| AgxGate.RunCycle | tools/agx_gate.py:108-142 | one cycle passes exactly when the backend was released and nothing in it fails, and says how far it got |
| AgxGate.Recover | tools/agx_gate.py:143-168 | recovery stops what was started and not stopped, resets, and records release truthfully |
| AgxGate.RunGate | tools/agx_gate.py:89-190 | every manifest written, the result, and success exactly when the backend was released and every requested cycle is clean; a backend that still owns hardware fails the first cycle |
| AgxGate.ProgressTrustworthy | tools/agx_gate.py:105-142 | each progress manifest counts its passed records, which are numbered from the front |
| AgxGate.FailureTrustworthy | tools/agx_gate.py:170-176 | so does the manifest of a failure, whose last record alone failed |
| AgxGate.RunAndAudit | tools/agx_gate.py:89-190 | all evidence of any run on any reachable backend is trustworthy, and launch is permitted exactly after ten clean cycles out of ten on a released one, with the hardware given back |
| Intervals.NeighbourScanExact | tools/agx_contract.py:134-140 | sorting and comparing neighbours accepts exactly the families that are pairwise disjoint in each context, whatever the sort |
| Intervals.AcceptedObjectsPartition | tools/agx_frame_fixture.py:185-274 | in an accepted fixture no address lies in two objects, and an address is contained exactly when one object and no other holds it, inside a private range |
| Intervals.DisjointObjectsAccepted | tools/agx_frame_fixture.py:264-274 | no disjoint fixture is refused |
| Intervals.GuardsUnmapped | tools/agx_m1n1_render_backend.py:295-309 | accepts exactly the mappings that do not overlap and whose every page just outside the mapped ones translates to nothing |
| RenderEvidence.ValidMappingsDisjoint | tools/agx_render_gate.py:189-222 | no two classified mappings of one context share an address |
| RenderEvidence.RecordedReceiptValid | tools/agx_render_gate.py:428-527 | a recorded receipt validates for its own cycle exactly when the m1n1 base moved as well |
| RenderEvidence.LoadShots | tools/agx_render_gate.py:546-554 | loading succeeds exactly when each of the ten one-shot results is valid |
| RenderEvidence.BootsDiffer | tools/agx_render_gate.py:555-558 | the set sizes are ten exactly when cookies and identities are pairwise distinct |
| RenderEvidence.BindCycles | tools/agx_render_gate.py:560-590 | binding succeeds exactly when each reset is bound to its cycle and each later cycle booted with the identity the reset before it recorded |
| RenderEvidence.Aggregate | tools/agx_render_gate.py:530-607 | aggregation succeeds exactly on qualified evidence for ten cycles |
| RenderEvidence.ResetBootUnique | tools/agx_render_gate.py:555-570 | the boot a reset records is the next cycle's and no other cycle's |
| RenderEvidence.AggregateVerifies | tools/agx_render_gate.py:610-668 | the verifier accepts every aggregate that can be produced |
| RenderBackend.M1n1AgxRenderBackend.Prepare | tools/agx_m1n1_render_backend.py:113-118 | refused once a fixture is held, which happens as soon as the lifecycle has prepared |
| RenderBackend.M1n1AgxRenderBackend.ConfigureContext | tools/agx_m1n1_render_backend.py:153-229 | the new state for a failure at each internal call, cleanup included |
| RenderBackend.M1n1AgxRenderBackend.SubmitFrame | tools/agx_m1n1_render_backend.py:391-540 | the guards on queue, deadline and one-shot use, and the cleanup before the completion is judged |
| RenderBackend.M1n1AgxRenderBackend.CleanupFrame | tools/agx_m1n1_render_backend.py:358-389 | the file at the recorded path goes, or stays with the errors collected |
| RenderBackend.M1n1AgxRenderBackend.Reset | tools/agx_m1n1_render_backend.py:596-615 | context 63's roots are cleared before the lifecycle is reset and objects are dropped |
| RenderBackend.RInvAlways | tools/agx_m1n1_render_backend.py:66-630 | the flags agree with both contexts' hardware after every run |
| RenderBackend.RenderReleasedIsClean | tools/agx_m1n1_render_backend.py:596-630 | over every run, released implies cleared roots in both contexts, stopped firmware, and on the disk exactly as many temporary frames as configurations recorded over the path of a file that still existed |
| RenderBackend.OverwrittenMeans | tools/agx_m1n1_render_backend.py:181-189 | that number is positive exactly when the run contains such a configuration |
| RenderBackend.OrphansCounted | tools/agx_m1n1_render_backend.py:153-229 | over every run that is not poisoned, the files that are not at the recorded path are exactly the overwritten ones |
| RenderBackend.ReleasedWithFileLeft | tools/agx_m1n1_render_backend.py:596-630 | a run that ends released with the first frame's file still on the disk |
| RenderBackend.PoisonedIffBuildFailed | tools/agx_m1n1_render_backend.py:166-229 | a configuration poisons the backend exactly when it gets past its guards and raises |
| RenderBackend.PoisonedForever | tools/agx_m1n1_render_backend.py:617-630 | a poisoned backend is never released again |
| RenderBackend.PreparedOnce | tools/agx_m1n1_render_backend.py:113-118 | after one preparation no later run prepares again |
| RenderGate.AttemptStart | tools/agx_render_gate.py:318-321 | preparation, start and heartbeat, and what a failure there leaves to recover |
| RenderGate.AttemptSubmission | tools/agx_render_gate.py:322-324 | configuration and submission, likewise |
| RenderGate.AttemptCycle | tools/agx_render_gate.py:318-353 | on a new backend the cycle passes exactly when nothing failed and the host validated the completion |
| RenderGate.Recover | tools/agx_render_gate.py:354-384 | recovery completes the calls so that stop and then reset were each attempted exactly once |
| RenderGate.RunRenderGate | tools/agx_render_gate.py:292-384 | whatever fails: launch stays blocked, stop once then reset once, a passed record only with a validated completion and everything given back, a failed one truthful about release; on a new backend release leaves no temporary file |
| QueueGate.AttemptQueueCycle | tools/agx_queue_gate.py:225-268 | the cycle passes exactly when no call raises, nothing is late, the completion is valid and the backend answers that it is released |
| QueueGate.RunQueueGate | tools/agx_queue_gate.py:200-305 | for any backend whatever fails: launch stays blocked, stop once then reset once, a passed record only with a valid completion, a failed one claims release only if the backend answered so |
| BootImages.ReadHeader | standalone_image.py:106-121 | any 64 bytes read as the one header that stores them |
| BootImages.ReadHeaderBytes | standalone_image.py:61-75 | a stored header reads back |
| BootImages.Offsets | standalone_image.py:87-92 | the scan returns exactly the aligned occurrences of the magic, ascending |
| BootImages.ParseIffLaidOut | standalone_image.py:95-168 | an image is accepted with a result exactly when it is prefix, header, zero padding and payload to the end for that result, and the magic occurs at no other aligned offset |
| BootImages.PackedOccurrences | bootstrap_image.py:34-76 | in a packed image the magic stands at the header and where prefix or compressed payload already had it |
| BootImages.ParsePacked | bootstrap_image.py:34-149 | parsing what was packed returns it exactly when prefix and compressed payload are free of aligned magic, and reports several manifests otherwise |
| BootImages.MagicPrefixRefused | standalone_image.py:41-84 | a concrete prefix that packs and does not parse |
| BootImages.ImageRoundTrip | standalone_image.py:41-168 | packing and parsing the standalone image succeeds exactly for packable arguments and returns firmware, flags, sizes and offset |
| BootImages.BootstrapRoundTrip | bootstrap_image.py:34-149 | the same for the bootstrap image, whose Stage 0 must be aligned |
| BootImages.PackBootDecodes | tools/pack_boot.py:57-86 | the tool writes exactly when both containers are packable and the stages differ, its assertions hold, and the nested containers decode to the firmware |
| HangTelemetry.StatusIffEncoded | hang_telemetry.py:76-90 | status payloads accepted are exactly the encodings of coherent rings |
| HangTelemetry.SampleIffEncoded | hang_telemetry.py:93-98 | sample payloads are exactly the encodings of samples |
| HangTelemetry.TotalMeans | hang_telemetry.py:101-107 | a total is last minus first without a restart, and zero exactly when each step kept the counter or found it at zero |
| HangTelemetry.StalledNvmeReported | hang_telemetry.py:110-140 | a stalled NVMe queue is reported exactly when, over four consecutive samples, commands moved and completions stood still |
| HangTelemetry.WindowSuffices | hang_telemetry.py:110-115 | classifying the last four samples is classifying the whole log |
| HangTelemetry.TelemetryRecorder.AcceptEvent | hang_telemetry.py:215-238 | an event is logged once, in order, and the status write decides only the result |
| HangTelemetry.TelemetryRecorder.DrainRing | hang_telemetry.py:246-264 | the drain loop, with events that re-enter the recorder at any request |
| HangTelemetry.TelemetryRecorder.PollOnce | hang_telemetry.py:240-267 | the whole poll, with the exception it raises, under re-entry at the status request too |
| HangTelemetry.TelemetryRecorder.MaybePoll | hang_telemetry.py:269-299 | re-entered it changes nothing; otherwise it polls exactly when forced or due, and records failures |
| HangTelemetry.DrainedExactly | hang_telemetry.py:246-264 | whatever the target answers, the log grows by the unbroken run of answered sequences and the poll stops for the reason of the first unanswered one |
| HangTelemetry.FullyAnsweredPoll | hang_telemetry.py:240-267 | a fully answered poll logs exactly the sequences from max(oldest, next) up to the ring's end |
| HangTelemetry.EveryRun | hang_telemetry.py:143-299 | over every run the log strictly increases, the window is its last four samples, every status document says what was the case when it was written, and between two documents neither log nor cursor went back |
| HangTelemetry.LogOnlyGrows | hang_telemetry.py:193-198 | the log after a run extends the log after any part of it |
| HwdataProfile.CanonicalInputs | tools/generate_agx_hwdata_profile.py:88-96 | the loop builds the length-prefixed encoding, or raises for an input that has none |
| HwdataProfile.ProfileIdentity | tools/generate_agx_hwdata_profile.py:99-108 | the digest is of exactly the preimage |
| HwdataProfile.PreimageIdentifies | tools/generate_agx_hwdata_profile.py:88-108 | preimages of well-formed profiles are equal exactly when inputs, sources in any order and both blobs are |
| HwdataProfile.PreimageAmbiguity | tools/generate_agx_hwdata_profile.py:88-108 | two encodable profiles with one preimage are equal exactly when the same inputs are present and the sorted sources' digests have the same lengths |
| HwdataProfile.ValueSplits | tools/generate_agx_hwdata_profile.py:93-95 | an absent value, an empty one and every other are told apart whatever follows |
| HwdataProfile.LooseDigestsCollide | tools/generate_agx_hwdata_profile.py:103-107 | with digests of free length two different profiles share a preimage |
| Ordering.SortForgetsOrder | tools/generate_agx_hwdata_profile.py:103 | sorting by distinct names gives equal lists exactly for permutations |
| UtilLut.Lut3Bits | investigation/evidence/AD04-util-lut2-portability-005/derived-lut.h:38-42 | bit i of the compiled table is the expression at assignment i |
| UtilLut.Lut2Bits | investigation/evidence/AD04-util-lut2-portability-005/derived-lut.h:44-45 | the two-source table is the restriction to c false |
| UtilLut.Lut3Canonical | investigation/evidence/AD04-util-lut2-portability-005/derived-lut.h:17-42 | two expressions share a table exactly when they agree everywhere |
| UtilLut.TableRoundTrip | investigation/evidence/AD04-util-lut2-portability-005/derived-lut.h:17-22 | every table is compiled from the disjunction of its minterms |
| UtilLut.InvertSource3Negates | investigation/evidence/AD04-util-lut2-portability-005/derived-lut.h:51-62 | inverting a source in the table negates it in the expression |
| UtilLut.InvertSource2Negates | investigation/evidence/AD04-util-lut2-portability-005/derived-lut.h:64-68 | inverting a source of a two-source table negates it in the expression exactly for sources 0 and 1, and for source 2, which the assertion lets through, exactly when the expression is false whenever c is true |
| UtilLut.InvertSource2FailsForA | investigation/evidence/AD04-util-lut2-portability-005/derived-lut.h:64-68 | for the expression a and source 2 it does not |
| UtilLut.Invert3Negates | investigation/evidence/AD04-util-lut2-portability-005/derived-lut.h:82-86 | inverting the table negates the expression |
| UtilLut.Invert2Negates | investigation/evidence/AD04-util-lut2-portability-005/derived-lut.h:76-80 | also for two sources |
| UtilLut.SwapSources3Swaps | investigation/evidence/AD04-util-lut2-portability-005/derived-lut.h:98-110 | swapping any two sources in the table swaps them in the expression |
| UtilLut.SwapSources2Swaps | investigation/evidence/AD04-util-lut2-portability-005/derived-lut.h:92-96 | also for two sources |
| Texts.LinesConcat | scripts/agent/patch_proposal_lane.py:246 | splitting into lines loses no character |
| PatchLane.ReadBody | scripts/agent/patch_proposal_lane.py:301-306 | the innermost loop takes and counts exactly one hunk body |
| PatchLane.ReadPieces | scripts/agent/patch_proposal_lane.py:294-308 | the hunk loop takes exactly the hunks of a section |
| PatchLane.ParsePatch | scripts/agent/patch_proposal_lane.py:243-314 | every call ends with exactly the specified files or reason |
| PatchLane.ParseIffGrammar | scripts/agent/patch_proposal_lane.py:243-309 | sections are accepted exactly when the lines are theirs, one after another, and each is valid |
| PatchLane.AcceptedIff | scripts/agent/patch_proposal_lane.py:243-314 | a text is accepted with given files exactly when it is neither empty nor binary and its lines are valid sections with distinct targets inside both limits, the changes counted over the raw lines |
| PatchLane.AcceptedPatch | scripts/agent/patch_proposal_lane.py:243-314 | lines beginning + or - number the counted changes plus two a file, both limits hold, and the result is the targets, sorted, distinct, each safe, allowed and not forbidden |
| PatchLane.SecondHunkRejected | scripts/agent/patch_proposal_lane.py:294-300 | a second hunk header that no further one follows is never accepted |
| BalancedText.Balanced | tools/verify_j313_agx_g2_aml.py:25-48 | the index loop finds the closing bracket the scan specifies |
| BalancedText.InteriorIffPrinted | tools/verify_j313_agx_g2_aml.py:25-48 | a string is returned exactly when it is a printed tree of characters, escaped literals and blocks, enclosed by the brackets |
| CallText.Arguments | extra/check_j313_madt_topology.py:46-59 | the loop strips the segments between commas of depth zero |
| CallText.SegmentsJoin | extra/check_j313_madt_topology.py:46-59 | the segments joined by commas are the text |
| CallText.ArgumentsIff | extra/check_j313_madt_topology.py:46-59 | arguments are recovered from their comma join exactly when they are stripped, balanced but for the last, and free of commas at depth zero |
| CallText.FindsFirst | extra/check_j313_madt_topology.py:24-27 | the first occurrence is found, and none is missed |
| CallText.CloseCall | extra/check_j313_madt_topology.py:31-38 | the inner loop ends after the parenthesis that brings the depth to zero, if there is one |
| CallText.ClosedAfterNested | extra/check_j313_madt_topology.py:31-38 | which is the one after a balanced interior |
| CallText.Calls | extra/check_j313_madt_topology.py:21-43 | the generator yields exactly the specified interiors and says whether it raised |
| CallText.CallsIff | extra/check_j313_madt_topology.py:21-43 | it yields a list without an error exactly when the text is made of calls with those balanced interiors and a tail without the marker |

## Left out

- Drivers, hypervisor and every C source but the lookup-table header: not part of this model.
- Files, fsync and atomic replacement, sockets, USB, serial, subprocesses, git and the network: answers are parameters and written files are sequences of values. A write that fails inside the G1 gate is not modelled; in the telemetry recorder the status file's writes may fail and the log's do not.
- Texts of error messages: an error keeps its reason, not its wording.
- FramePublisher.EveryRun: models the receiver while it is open; `close` and its sentinel are not part of it, and neither is `wait_for_generation`.
- `normalize` of tools/launch_contract.py, which only renders validated payloads as text.
- LaunchCompare.CompareSound: differences carry paths and values where the tool renders strings; documents are compared on values, and non-finite floats are not part of the model.
- AgxLifecycle.M1n1AgxBackend.Beat: the snapshot it returns and the register decoding behind it are not modelled, only whether it raises.
- `aggregate_cold_results` and `verify_gate_result` of tools/agx_gate.py, and the aggregation of tools/agx_queue_gate.py: the render gate has the longer chain of the same shape.
- QueueGate.RunQueueGate: the backend is any object whose calls raise or return, so nothing is said about the hardware behind it.
- The queue backend of tools/agx_m1n1_queue_backend.py: its failed configuration claims no ownership, so the root-clearing result is stated for the render backend.
- RenderBackend.M1n1AgxRenderBackend.SubmitFrame: the polling loop counts as one internal call that completes or raises; deadlines are not part of it.
- BootImages.ParsePacked: xz is lossless and never produces an empty stream; its failures on damaged streams are the decompressor's None.
- HangTelemetry.EveryRun: events delivered inside a poll's own proxy calls may re-enter `maybe_poll` but not `accept_event`, for which the recorder has no guard.
- HwdataProfile.PreimageIdentifies: digests are the bytes that `bytes.fromhex` yields; that it accepts either case and blanks is not modelled.
- UtilLut.SwapSources3Swaps: `util_bit_swap` is modelled by its effect: util/macros.h and the header that defines it are not part of this model; pairs of sources other than the three it handles are unreachable in the original.
- PatchLane.ParsePatch: `safe_target` is a function of the path, asked for its verdict on the repository; `\d` and case folding are those of ASCII, and `structured_diff`, which produces patches, is not modelled.
- Comment stripping, the pattern searches and the integer parsing around `_balanced` and `_calls`.
