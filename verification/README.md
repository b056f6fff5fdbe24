# Quantum Runtime: a verified model

A Dafny model of the stateful and algorithmic parts of Quantum Runtime, with proofs of what they keep
over every input, every failure and every run. `dafny verify dfyconfig.toml` checks all of it.

| files | part of the runtime |
|---|---|
| `PlacementSpec`, `Planner`, `PlacementProofs`, `PlacementDecisions` | the CPU-first placement planner: a greedy over VRAM and RAM counters |
| `InstallSpec`, `Installer`, `InstallProofs`, `InterruptionProofs`, `UninstallProofs`, `ProvenanceProofs`, `InstallChecks` | the transactional installer: ordered writes, rollback, ownership, uninstall |
| `SemVer`, `SemVerProofs` | the semantic version parser and comparator of model manifests |
| `StreamSpec`, `Translators`, `StreamProofs`, `StreamReading` | the llama.cpp event-stream to JSON-lines translators |
| `Manifests`, `Registry`, `RegistryProofs` | manifest validation and the identifier/alias index |
| `RouterSpec`, `Router`, `RouterProofs`, `RouteMeaning` | the backend router |
| `Calibration` | the calibration store under its two locks, as interleaved steps |
| `CpuList` | CPU-list counting and the least positive value |
| `Words`, `Wrappers`, `Text`, `Sorting` | 64-bit words, results, and the library operations on strings and slices |

Each part that the source writes with assignments and loops is a class or a method here (`Planner`,
`Installer`, `Translators`, `Registry`, `Router`, `CpuList`, and the methods of `SemVer` and `Manifests`).
Its contract ties it to a function on values, or states the result outright; the lemmas in the `*Proofs`
files are about those functions, and `PlacementDecisions`, `InstallChecks`, `StreamReading` and `RouteMeaning`
tell what they mean in the terms of requests, failing steps, raw lines, and the fields of models and backends. What a library or the machine decides is a parameter: the installer takes
the set of steps that fail, the translators take a JSON decoder and the number of writes the pipe accepts,
sorting is known only as "some sorted permutation".

## What was found

Where the code and the intent of its documentation differ, the model follows the code.

* The planner adds six 64-bit sizes without a check. A sum that wraps can be called `cpu_only` on a host
  with no memory (`WrappedSumIsAccepted`); this is the only way, and the only way in which a tier's booking
  differs from its entries (`CpuOnlyIsSoundWithoutWrap`, `TiersAreAccounted`).
* More usable RAM and VRAM never hurt, but a larger reported total can: the default reserve grows with it
  (`MoreReportedRamCanHurt`). A report is safe for every request of a given reserve exactly when usable RAM
  does not shrink (`ReportedMemoryIsSafeExactly`), as with an explicit reserve (`ExplicitReserveIsMonotone`).
* The hybrid greedy can miss a packing (`GreedyIsNotOptimal`). A packing exists exactly when one of the sixteen
  choices of whole classes for VRAM works (`PackableExactly`), and the greedy's verdict is right exactly when
  none does or what the greedy leaves outside VRAM fits in RAM (`GreedyIsOptimalExactly`).
* The version comparator reports both of two different out-of-range numeric identifiers as newer than the
  other. It is antisymmetric on exactly the other pairs (`CompareIsAntisymmetricExactly`). For the same reason
  a compatibility range can be accepted the wrong way round (`ReversedRangeIsAccepted`), on exactly such pairs
  (`CompatibilityRangeIsOrderedExactly`).
* A rollback writes files back without setuid, setgid and sticky bits; it restores the files exactly when
  none had any (`InstallIsAllOrNothing`, `RollbackLosesSpecialBits`).
* A first installation looks external, and is then refused by the installer itself, exactly between its first
  write and its marker's, whether it was cut off there or its rollback failed there; and, when the marker's
  write failed, during the rollback until the unit is gone (`InterruptedFirstInstallLooksExternal`,
  `FailedFirstInstallEndsExternalExactly`, `FailedRollbackLooksExternal`). An update never does
  (`InterruptedUpdateStaysManaged`), and can be run again (`UpdateIsResumable`).
* The existence check takes a failed stat for an absent file, so external files are protected exactly when
  one of their stats succeeds (`ExternalIsKeptExactly`, `FailedStatsLetInstallOverwrite`). An installation is
  harmed only by a passing error: one that is still there when the snapshot is taken refuses the call
  (`PersistentStatErrorIsRefused`). An uninstall takes no snapshot: while the stats of marker, binary and unit
  fail it reports success and removes nothing (`UnseenInstanceIsReportedGone`). Success ends Disabled exactly
  when the marker was seen and listed what was there, or nothing was (`SuccessfulUninstallEndsDisabledExactly`).
* A purge deletes an operator's configuration only if the operator created it while a marker claimed it, or put
  a claiming marker beside it (`MoveKeepsProvenanceExactly`, `CreatingAClaimedConfigLosesIt`,
  `RestoringAMarkerLosesIt`).
* The router accepts backends that share an id, and its sort leaves them in any order. A router always gives one
  answer (`RouteIsDetermined`), but which one can depend on that order (`TiedBackendsFollowTheOrder`), exactly
  unless the backends that tie for the least choice report the same context (`RouteIgnoresTiesExactly`).
* Counting a CPU range that ends at the largest integer does not return: the loop variable wraps before it passes
  the end (`LoopEndsExactly`, `CountNeverEndsExactly`, `RangeToTheLargestNeverEnds`).

## Model

| member | source | states |
|---|---|---|
| Planner.Build | internal/placement/placement.go:51-127 | a request is refused exactly as validated, and otherwise the plan object built in place is the planned value, in all three branches |
| Planner.LargestVram | internal/placement/placement.go:70-75 | the best VRAM is an upper bound that some accelerator attains, or zero |
| Planner.Plan.AllocateWhole | internal/placement/placement.go:154-172 | one whole class moves counters, bookings and entries together and touches nothing else of the plan |
| Planner.Plan.AllocateSplit | internal/placement/placement.go:174-196 | one split class fills VRAM, then RAM, and reports the rest |
| Planner.Plan.AllocateHot | internal/placement/placement.go:100-105 | the six calls amount to the greedy over the six hot classes in that order |
| Planner.Plan.AssignHotToRam | internal/placement/placement.go:198-213 | the non-empty hot entries are appended and booked with wrapping addition |
| Planner.Plan.AssignUnplaced | internal/placement/placement.go:215-228 | the non-empty hot entries are appended without a tier |
| Planner.Plan.AssignCold | internal/placement/placement.go:230-242 | cold bytes go to the allowed NVMe budget or are reported unplaced |
| PlacementProofs.VramUsedIsMonotone | internal/placement/placement.go:154-196 | over any list of whole and split classes, the greedy fills no less VRAM when there is more of it |
| PlacementProofs.PlaceAllFeasible | internal/placement/placement.go:100-110 | over any list, VRAM use does not depend on RAM, and something is unplaced iff what misses VRAM exceeds RAM |
| PlacementProofs.PlaceAllKeeps | internal/placement/placement.go:154-196 | every allocation keeps counters, bookings and entries in agreement, and no entry left outside VRAM would fit in it |
| PlacementProofs.EveryClassIsConserved | internal/placement/placement.go:51-127 | in every branch each class's entries add up to the bytes requested |
| PlacementProofs.TiersAreAccounted | internal/placement/placement.go:81-126 | no tier is booked beyond its capacity, and bookings equal entries except exactly for wrapped cpu_only plans |
| PlacementProofs.HotStateIsNeverOnDisk | internal/placement/placement.go:82-126 | no hot entry is on NVMe, and capacity_exceeded means exactly that some hot entry has no tier |
| PlacementProofs.FeasibleExactly | internal/placement/placement.go:81-126 | the exact condition under which a plan is feasible |
| PlacementProofs.MoreMemoryNeverHurts | internal/placement/placement.go:81-126 | raising usable RAM and best VRAM never makes a feasible request infeasible |
| PlacementProofs.MoreReportedRamCanHurt | internal/placement/placement.go:56-67 | hosts whose larger total, or known instead of unknown available bytes, lose the plan |
| PlacementProofs.ReportedMemoryIsSafeExactly | internal/placement/placement.go:56-126 | for any two hosts and any reserve, with no less VRAM, every valid request stays feasible iff usable RAM does not shrink |
| PlacementProofs.ExplicitReserveIsMonotone | internal/placement/placement.go:56-67 | with an explicit reserve more available bytes never hurt, whatever the totals |
| PlacementProofs.HotWordIsReduced | internal/placement/placement.go:81 | the computed hot sum, and the RAM booking, are the true sum modulo 2^64 |
| PlacementProofs.CpuOnlyIsSoundWithoutWrap | internal/placement/placement.go:81-91 | a cpu_only plan fits usable RAM exactly when the hot sum fits in 64 bits |
| PlacementProofs.WrappedSumIsAccepted | internal/placement/placement.go:81-91 | a wrapped sum accepted on a host without memory |
| PlacementProofs.LeftoverVramIsTooSmall | internal/placement/placement.go:93-120 | leftover VRAM is smaller than every hot entry outside it; spilled weights leave none, and then feasibility compares totals |
| PlacementProofs.SpilledWeightsStarveLaterClasses | internal/placement/placement.go:100-105 | once model weights spill out of VRAM, no expert, prefix cache or workspace byte is in it |
| PlacementProofs.RequirementsMatchPlacement | internal/placement/placement.go:111-118 | in every branch, cold-tier support is required iff an entry is on NVMe, KV-cache placement iff there is a KV cache and an entry is in VRAM, expert offload iff there are experts in a hybrid attempt |
| PlacementProofs.SpillingGreedyIsOptimal | internal/placement/placement.go:93-120 | a feasible hybrid plan is a packing, and with spilled weights the greedy finds one whenever one exists |
| PlacementProofs.GreedyIsNotOptimal | internal/placement/placement.go:93-120 | without a spill a packing can exist and be missed |
| PlacementProofs.PackableExactly | internal/placement/placement.go:154-196 | over any classes, a packing exists iff some choice of whole classes for VRAM leaves room for the rest |
| PlacementProofs.GreedyIsOptimalExactly | internal/placement/placement.go:93-120 | the plan is feasible iff a packing exists, exactly when no such choice succeeds where the greedy does not |
| PlacementDecisions.ValidRequestsExactly | internal/placement/placement.go:129-140 | valid iff there is a model and, with NVMe allowed, the cold bytes fit the budget, with the error of each refusal |
| PlacementDecisions.UsableRamIsWhatIsLeft | internal/placement/placement.go:56-67 | usable RAM is what the reserve, given or a fifth of the total and at least two GiB, leaves of the reported bytes |
| PlacementDecisions.DecisionExactly | internal/placement/placement.go:81-126 | CPU-first: cpu_only iff the hot bytes modulo 2^64 fit usable RAM, whatever acceleration allows; the exact condition of every decision and reason |
| PlacementDecisions.EachClassIsServedInOrder | internal/placement/placement.go:100-105 | in a hybrid attempt each class has its share of what the classes before it left of VRAM, then of RAM |
| PlacementDecisions.GreedyServes | internal/placement/placement.go:154-196 | the same over any list of different classes |
| PlacementDecisions.OtherBranchesUseOneTier | internal/placement/placement.go:82-126 | a cpu_only plan has its hot entries in RAM, one without acceleration nowhere |
| PlacementDecisions.ColdAndWarningsExactly | internal/placement/placement.go:230-242 | where the cold bytes go, and exactly when each warning is given |
| PlacementDecisions.EntriesAreListedByClass | internal/placement/placement.go:198-228 | the order of the entries in every branch |
| Installer.Disk.WriteAtomic | internal/installer/installer.go:583-609 | a write replaces the whole file or changes nothing |
| Installer.Disk.RemoveIfExists | internal/installer/installer.go:611-617 | a removal is idempotent, or changes nothing when it fails |
| Installer.Disk.ReadOptional | internal/installer/installer.go:560-573 | contents and permission bits of a file, its absence, or an error |
| Installer.Manager.RuntimeOwnership | internal/installer/installer.go:435-447 | the ownership seen through stats that may fail |
| Installer.Manager.CaptureSnapshot | internal/installer/installer.go:518-535 | the snapshot holds every managed path, or the first error |
| Installer.Manager.RestoreSnapshot | internal/installer/installer.go:537-558 | the restores performed are those before the first failure |
| Installer.Manager.Rollback | internal/installer/installer.go:263-275 | after any failing step the files and the outcome are those of the installation's trace |
| Installer.Manager.Prepare | internal/installer/installer.go:220-262 | the refusals before anything is written, and whether the configuration will be claimed |
| Installer.Manager.Install | internal/installer/installer.go:220-323 | the files end as the trace of the installation under those failures, with that outcome |
| Installer.Manager.Repair | internal/installer/installer.go:325-331 | an installation, only when the instance is seen as managed |
| Installer.Manager.Uninstall | internal/installer/installer.go:333-369 | the files end as the trace of the uninstall, with that outcome |
| Installer.Manager.RemoveListedPaths | internal/installer/installer.go:351-358 | listed paths are removed up to the first unexpected or failing one |
| InstallProofs.InstallIsAllOrNothing | internal/installer/installer.go:250-322 | an error without a failed restore leaves existence, contents and permission bits of all four files as before; the files are identical iff no special bits were lost |
| InstallProofs.EveryPointIsOldOrNew | internal/installer/installer.go:286-310 | stopped anywhere, rollback included, every path holds its old or its new file, and an existing configuration is kept |
| InstallProofs.SuccessfulInstall | internal/installer/installer.go:286-322 | the complete state after success: new binary, unit and marker, configuration kept or created, Managed |
| InstallChecks.InstallIsRefusedExactly | internal/installer/installer.go:220-262 | refused, with nothing written, iff a check of the machine, a capture or the marker fails or external files are seen |
| InstallChecks.SingleFailingCheck | internal/installer/installer.go:222-262 | a single failing check is the reason given |
| InstallChecks.FirstFailingCheck | internal/installer/installer.go:222-245 | of several failing checks the first is |
| InstallChecks.RefusedByFiles | internal/installer/installer.go:246-261 | external files or an unreadable marker refuse where nothing fails |
| InstallChecks.InstallSucceedsExactly | internal/installer/installer.go:220-323 | success iff cleared and none of the steps of the installation fails; otherwise rolled back because of one that does |
| InstallChecks.FirstFailingStepIsTheCause | internal/installer/installer.go:277-322 | the steps in their order: the first that fails is the cause |
| InstallChecks.InstalledFiles | internal/installer/installer.go:283-310 | contents and modes of the four files, and the fields of the marker, after success |
| InstallChecks.RepairSucceedsExactly | internal/installer/installer.go:325-331 | repair succeeds iff it sees the marker and the installation succeeds, and leaves what that leaves |
| InstallChecks.CleanRepairInstalls | internal/installer/installer.go:325-331 | on a managed instance a repair in which nothing fails installs it anew |
| InterruptionProofs.InterruptedUpdateStaysManaged | internal/installer/installer.go:286-310 | an update is Managed at every intermediate point, whatever fails |
| InterruptionProofs.InterruptedFirstInstallLooksExternal | internal/installer/installer.go:250-322 | stopped anywhere, with any failing steps and rollback included, where exactly it looks External, and is then refused |
| InterruptionProofs.FailedFirstInstallEndsExternalExactly | internal/installer/installer.go:263-310 | a failed first installation ends External iff its rollback failed while a file was left and no marker |
| InterruptionProofs.FailedRollbackLooksExternal | internal/installer/installer.go:263-310 | an installation without interruption that ends so |
| InterruptionProofs.UpdateIsResumable | internal/installer/installer.go:286-310 | an update stopped or failed anywhere and run again ends as one uninterrupted update, unless exactly the configuration has special bits and the rollback had come to its second file |
| InterruptionProofs.RollbackLosesSpecialBits | internal/installer/installer.go:537-573 | any file with a special bit is changed by a rollback that reports no error of its own |
| InterruptionProofs.ExternalIsKeptExactly | internal/installer/installer.go:246-248 | given the stats that fail, installations leave external files unchanged, whatever else fails, iff a stat of one succeeds |
| InterruptionProofs.FailedStatsLetInstallOverwrite | internal/installer/installer.go:619-622 | when all stats of the files present fail and nothing else does, an installation overwrites them |
| InterruptionProofs.PersistentStatErrorIsRefused | internal/installer/installer.go:560-573 | a stat error that lasts until the snapshot refuses the call |
| UninstallProofs.UninstallRemovesOnlyManagedFiles | internal/installer/installer.go:333-369 | for any marker and any failure, only binary, unit, marker and a purged claimed configuration can disappear |
| UninstallProofs.UninstallIsResumable | internal/installer/installer.go:350-368 | stopped after any prefix and run again, it ends as one uninterrupted run |
| UninstallProofs.UninstallIsIdempotent | internal/installer/installer.go:338-341 | uninstalling twice is uninstalling once |
| UninstallProofs.SuccessfulUninstallEndsDisabledExactly | internal/installer/installer.go:333-369 | whatever fails, a reported success ends Disabled iff there was nothing to do, or the marker was seen and listed what was there; it ends Managed iff the marker was not seen |
| UninstallProofs.CompletedRemovals | internal/installer/installer.go:350-368 | what completed removals leave, path by path |
| UninstallProofs.UnseenInstanceIsReportedGone | internal/installer/installer.go:338-341 | a success that removes nothing, when the stats of the three files fail |
| UninstallProofs.UninstallUndoesInstall | internal/installer/installer.go:220-369 | install then purge gives back the files there were |
| InstallChecks.UninstallRemovesExactly | internal/installer/installer.go:333-348 | removals are begun iff the superuser calls and the marker is seen, read and understood |
| InstallChecks.UninstallRefusedBecause | internal/installer/installer.go:335-348 | the reason of each refusal |
| InstallChecks.RemovalsSucceedExactly | internal/installer/installer.go:350-368 | removals go through iff the marker lists only binary and unit and no removal fails |
| ProvenanceProofs.MoveKeepsProvenanceExactly | internal/installer/installer.go:254-262 | any installer call or operator move keeps "a claimed configuration was created by the installer", except exactly an operator creating a claimed one or claiming the operator's own |
| ProvenanceProofs.PurgeNeverDeletesAnOperatorsFile | internal/installer/installer.go:359-363 | over every run of installs, repairs, uninstalls, failures, cut-offs and operator moves, a configuration an installer call removes was created by the installer |
| ProvenanceProofs.CreatingAClaimedConfigLosesIt | internal/installer/installer.go:359-363 | the run in which an operator loses a file |
| ProvenanceProofs.RestoringAMarkerLosesIt | internal/installer/installer.go:359-363 | the run in which an operator loses a file by putting a claiming marker back |
| ProvenanceProofs.UninstallAfterAnyRun | internal/installer/installer.go:291-303 | over every run in which no operator writes the marker, a successful uninstall ends Disabled iff it saw the marker or had nothing to do |
| ProvenanceProofs.ExternalIsFixedPoint | internal/installer/installer.go:246-248 | no run of installer calls changes external files, whatever fails, as long as each installation sees one of them |
| SemVer.ParseVersion | internal/modelmanifest/manifest.go:365-398 | the loop over the components and the scan of the identifiers parse as specified, first error included |
| SemVer.CompareVersion | internal/modelmanifest/manifest.go:400-453 | the two loops with their early returns compare as specified |
| SemVer.ValidateCompatibility | internal/modelmanifest/manifest.go:281-297 | the errors of a compatibility range, in order |
| SemVerProofs.ParseAcceptsExactlySemVer | internal/modelmanifest/manifest.go:365-398 | the parser accepts exactly the SemVer 2.0.0 texts without build metadata and with core numbers below 2^64 |
| SemVerProofs.ParseAfterRender | internal/modelmanifest/manifest.go:365-398 | parsing the text of a valid version gives it back |
| SemVerProofs.RenderAfterParse | internal/modelmanifest/manifest.go:365-398 | rendering a parsed version gives the text back |
| SemVerProofs.ParsedFields | internal/modelmanifest/manifest.go:365-398 | what an accepted text is parsed to, number by number |
| SemVerProofs.IdentifierCodes | internal/modelmanifest/manifest.go:20 | the identifiers' alphabet by character code |
| SemVerProofs.UnsupportedExactly | internal/modelmanifest/manifest.go:366-369 | unsupported iff the text is not three numerals and a tail |
| SemVerProofs.ComponentErrors | internal/modelmanifest/manifest.go:374-384 | the error of the first component that is no number of 64 bits without leading zeros |
| SemVerProofs.IdentifierErrors | internal/modelmanifest/manifest.go:386-396 | the error of the first identifier that is empty or a numeral with a leading zero |
| Text.DecimalIsPositional | internal/modelmanifest/manifest.go:430-431 | the value of a numeral in two parts |
| Text.LessAtFirstDifference | internal/modelmanifest/manifest.go:440-443 | the order of strings by their first difference |
| SemVerProofs.PrecedesIsStrictTotalOrder | internal/modelmanifest/manifest.go:400-453 | section 11 precedence is a strict total order on valid versions |
| SemVerProofs.CompareComputesPrecedence | internal/modelmanifest/manifest.go:400-453 | the comparator computes section 11 except on pairs decided by two numerals of at least 2^64-1 |
| SemVerProofs.CompareIsAntisymmetricExactly | internal/modelmanifest/manifest.go:428-435 | swapping the arguments flips the sign exactly off those pairs |
| SemVerProofs.CompareIsTotalOrder | internal/modelmanifest/manifest.go:400-453 | on valid versions with 64-bit identifiers the comparator is the total order of section 11 |
| SemVerProofs.CompareIsTransitive | internal/modelmanifest/manifest.go:400-453 | whatever the numbers, the comparator is transitive on valid versions |
| SemVerProofs.CompareIsZeroOnlyOnEqualText | internal/modelmanifest/manifest.go:400-453 | accepted texts are valid versions, and whatever the numbers, zero means the same text |
| SemVerProofs.OutOfRangeBreaksAntisymmetry | internal/modelmanifest/manifest.go:430-435 | two out-of-range identifiers, each newer than the other |
| SemVerProofs.LeadingZerosWouldBreakAntisymmetry | internal/modelmanifest/manifest.go:392-394 | without the refusal of leading zeros, any two different numerals of equal value in the decisive place would do the same; the parser accepts no such pair |
| SemVerProofs.CompatibilityRangeIsOrderedExactly | internal/modelmanifest/manifest.go:281-297 | every range is accepted iff its ends are versions and the upper one does not precede the lower or is indistinct from it |
| SemVerProofs.ReversedRangeIsAccepted | internal/modelmanifest/manifest.go:290-296 | a range accepted although its upper end precedes the lower |
| Translators.TranslateChatChoice | internal/llamacpp/client.go:670-687 | one decoded choice moves pipe and flag as the chat step does, a failing write closing the pipe |
| Translators.TranslateChatStream | internal/llamacpp/client.go:624-704 | the scan loop leaves in the pipe what the chat translation of those lines is, and ends as it does |
| Translators.TranslateGenerateStream | internal/llamacpp/client.go:706-772 | the same for the generate translation |
| Translators.Pipe.WriteChatChunk | internal/llamacpp/client.go:774-789 | one chat chunk, with a reason only when done, or nothing when the pipe fails |
| Translators.Pipe.WriteGenerateChunk | internal/llamacpp/client.go:791-802 | one text chunk, likewise |
| StreamProofs.ChatOutput | internal/llamacpp/client.go:631-694 | the output is exactly the chunks of the kept choices, in order, and one closing chunk where due |
| StreamProofs.StreamConservesContent | internal/llamacpp/client.go:632-687 | content and reasoning, with its fallback field, are conserved |
| StreamReading.RawLinesAreConserved | internal/llamacpp/client.go:632-694 | from raw lines to chunks: contents, reasoning by its two fields, and finish reasons, in order |
| StreamReading.DataLinesExactly | internal/llamacpp/client.go:633-637 | a line has data iff it is blanks, `data:`, blanks, a body and blanks, and the body is the data |
| StreamReading.EventsExactly | internal/llamacpp/client.go:633-669 | what each line means by what is written in it: `[DONE]`, malformed data, the first choice, tool calls |
| StreamReading.PresentExactly | internal/llamacpp/client.go:838-844 | which raw values ask for tool calls |
| StreamReading.KeptIsRead | internal/llamacpp/client.go:632-669 | the choices kept are those carried by the lines before the one that ends the stream |
| StreamProofs.DoneChunksMatchFinishReasons | internal/llamacpp/client.go:631-694 | done chunks number max(1, finish reasons) on a clean end, and none is synthesized otherwise |
| StreamProofs.StreamEndsAsTerminated | internal/llamacpp/client.go:638-694 | how the pipe is closed is decided by the first terminating event, or else by the scanner |
| StreamProofs.PrefixRefinesStream | internal/llamacpp/client.go:632-687 | the output on a prefix of the lines is a prefix of the output |
| StreamProofs.NoiseChangesNothing | internal/llamacpp/client.go:633-636 | inserting blank, comment or other lines without data changes nothing |
| StreamProofs.BrokenWriterSentAPrefix | internal/llamacpp/client.go:639-685 | a reader that leaves after k chunks has the first k chunks of the whole output |
| StreamProofs.BrokenWriterEnds | internal/llamacpp/client.go:639-694 | such a translation ends with the write error, unless only a last chunk whose loss goes unnoticed is missing |
| StreamProofs.GenerateRefinesChat | internal/llamacpp/client.go:706-772 | the generate translator equals the chat translator on the matching content-only stream |
| Manifests.ValidateAliases | internal/modelmanifest/manifest.go:167-179 | accepted iff every alias is well formed and all names are distinct |
| Manifests.ValidateArtifacts | internal/modelmanifest/manifest.go:206-240 | accepted iff non-empty, well formed and distinct as (backend, URI) pairs, although keys are joined by a separator |
| Manifests.KeysAreInjective | internal/modelmanifest/manifest.go:216 | the joined key is unambiguous for backends without the separator |
| Manifests.CapabilityNames | internal/modelmanifest/manifest.go:467-501 | exactly the names of the capabilities that are there, each once, sorted |
| Manifests.CapabilityNamesMean | internal/modelmanifest/manifest.go:467-501 | the name of each capability |
| Manifests.IdsExactly | internal/modelmanifest/manifest.go:16 | canonical ids by length and character code |
| Manifests.AliasesExactly | internal/modelmanifest/manifest.go:17 | aliases by length and character code |
| Manifests.RejectedByName | internal/modelmanifest/manifest.go:123-131 | manifests kept out by their names |
| Manifests.RejectedByArtifact | internal/modelmanifest/manifest.go:206-240 | manifests kept out by their artifacts |
| Manifests.RejectedByField | internal/modelmanifest/manifest.go:119-165 | manifests kept out by backend, flags or other fields |
| Manifests.CapabilitiesRequired | internal/modelmanifest/manifest.go:144-146 | one capability besides tool streaming must be declared |
| Manifests.RangeRequired | internal/modelmanifest/manifest.go:150-152 | the range of runtime versions must be one |
| Manifests.AcceptedByField | internal/modelmanifest/manifest.go:119-165 | nothing else keeps a manifest out |
| Registry.New | internal/modelregistry/registry.go:34-64 | built iff every manifest validates and all ids and aliases are pairwise distinct; a refusal names the first problem in reading order |
| Registry.Registry.AddAliases | internal/modelregistry/registry.go:52-60 | aliases are entered until the first name already known |
| Registry.Registry.Lookup | internal/modelregistry/registry.go:125-135 | an identifier resolves to a manifest that answers to it iff there is one |
| Registry.Registry.List | internal/modelregistry/registry.go:109-123 | one entry for each manifest with its sorted capability names, sorted by id |
| RegistryProofs.OwnerIsUnique | internal/modelregistry/registry.go:125-135 | a name belongs to one manifest, so lookup has one answer |
| RegistryProofs.FirstProblemIsUnique | internal/modelregistry/registry.go:40-61 | a refused list has one first problem, so the error is determined |
| RegistryProofs.NamesOfPermutation | internal/modelregistry/registry.go:40-62 | reordering the list keeps the multiset of names and ids |
| RegistryProofs.ListingIsDetermined | internal/modelregistry/registry.go:109-123 | a listing is determined by the list up to order |
| RegistryProofs.RegistryIgnoresOrder | internal/modelregistry/registry.go:34-64 | acceptance, lookup and listing do not depend on input order |
| Router.New | internal/backendrouter/router.go:40-52 | built iff there is a registry and every backend validates; backends are a sorted permutation of those given |
| Router.Router.Route | internal/backendrouter/router.go:54-88 | the plan is the least usable (kind, URI, backend id) choice, taken from the first backend in the router's list that gives it; not found iff nothing answers to the identifier, no backend iff no choice is usable |
| Router.Router.FirstBackend | internal/backendrouter/router.go:63-69 | the position of the first backend in the list that serves a candidate |
| Router.LeastChoice | internal/backendrouter/router.go:62-85 | the first match of the nested search is the least choice |
| Router.CandidateArtifacts | internal/backendrouter/router.go:95-117 | exactly the offered (kind, URI) pairs, each once, sorted |
| Router.NormalizedRequirements | internal/backendrouter/router.go:172-187 | exactly the non-empty names, each once, sorted |
| Router.RequirementsSatisfied | internal/backendrouter/router.go:119-130 | true iff model and backend support every name |
| Router.MatchPolicies | internal/modelpolicy/policy.go:147-162 | the ids of the matching policies, sorted |
| RouteMeaning.RoutableExactly | internal/backendrouter/router.go:62-87 | routable iff some backend of the kind of some artifact, neither disabled nor unavailable, supports with the model all that is asked |
| RouteMeaning.RouteServes | internal/backendrouter/router.go:62-85 | a plan names such a backend, the first in the list, with its kind and context, and such an artifact |
| RouteMeaning.RouteIsFirst | internal/backendrouter/router.go:62-85 | no choice that could serve is before it by kind, URI and id |
| RouteMeaning.RouteLists | internal/backendrouter/router.go:71-84 | its requirements and policies, exactly and sorted |
| RouteMeaning.ModelNames | internal/backendrouter/router.go:132-156 | which capability names follow one flag of the model |
| RouteMeaning.ModelNamesOfTwoFields | internal/backendrouter/router.go:147-154 | those of tools and reasoning |
| RouteMeaning.ArchitectureNames | internal/backendrouter/router.go:136-163 | those of the architecture class |
| RouteMeaning.OtherNames | internal/backendrouter/router.go:157-169 | execution names are left to the backend, and all other names are refused |
| RouteMeaning.ResolvesExactly | internal/modelregistry/registry.go:125-135 | an identifier resolves to the manifest with that id or alias |
| RouterProofs.RouteIgnoresOrder | internal/backendrouter/router.go:54-117 | permuting or repeating requirements and permuting artifacts, backends or policies changes neither routability nor, when ids are distinct or tied backends agree, the plan |
| RouterProofs.RouteIsDetermined | internal/backendrouter/router.go:54-88 | a router has one answer to a request, whether backends share ids or not |
| RouterProofs.AliasesAreTransparent | internal/backendrouter/router.go:54-58 | routing by alias gives the plan of the canonical id but for the requested identifier, whether backends share ids or not |
| RouterProofs.FewerRequirementsRouteNoLater | internal/backendrouter/router.go:119-130 | a subset of a routable set is routable, to a choice no later |
| RouterProofs.RouteIgnoresTiesExactly | internal/backendrouter/router.go:44-50 | over all orders the sort can leave the backends in, a request has one plan iff the backends tied for the least choice report the same context |
| RouterProofs.TiedBackendsFollowTheOrder | internal/backendrouter/router.go:44-50 | two ready backends of one id and kind: the first in the list is taken, so the two orders give two plans |
| Calibration.EveryRunKeepsInvariant | internal/resourcecontrol/manager.go:27-46 | locks, stored result, order of publication and reads agree after every schedule of any threads |
| Calibration.StoreIsLinear | internal/resourcecontrol/manager.go:27-46 | the stored result is the newest, publications follow acquisition of the calibration lock, reads never go back and return the newest result at the time of their nil check |
| Calibration.PublishedIsWhatWasMeasured | internal/resourcecontrol/manager.go:27-37 | over every run, the results published are those measured, by the same threads and in the order of measuring |
| Calibration.DereferenceSeesWhatWasChecked | internal/resourcecontrol/manager.go:39-46 | between its nil check and its dereference a reader sees no publication, so the pointer is not nil and is the one checked |
| Calibration.WriterExcludesAll | internal/resourcecontrol/manager.go:32-41 | at most one thread writes, and none reads beside it |
| Calibration.CalibrateReturnsWhatItStored | internal/resourcecontrol/manager.go:31-36 | a calibration returns what it published, still stored while it holds its lock |
| Calibration.CalibrationsExcludeEachOther | internal/resourcecontrol/manager.go:28-31 | at most one thread measures at a time |
| Calibration.NoDeadlock | internal/resourcecontrol/manager.go:27-46 | whenever some thread is inside a call, one can take its next step |
| Calibration.RunsWithoutNewCallsEnd | internal/resourcecontrol/manager.go:27-46 | without new calls a run is no longer than the work left |
| Calibration.AllCallsCanFinish | internal/resourcecontrol/manager.go:27-46 | from every reachable state all calls in progress can run to their end |
| CpuList.CountCpuList | internal/hostlimits/limits.go:219-251 | the nested loops count as specified, first error included, with a range whose loop does not end as an outcome of its own |
| CpuList.ListCountsWhatItNames | internal/hostlimits/limits.go:219-251 | a list of numbers and ranges counts exactly the numbers some part names |
| CpuList.SingleCounts | internal/hostlimits/limits.go:241-245 | one number counts one |
| CpuList.RangeCounts | internal/hostlimits/limits.go:225-239 | a range counts all from its first to its last |
| CpuList.BackwardsRangeIsRefused | internal/hostlimits/limits.go:232-235 | a range backwards is an error |
| CpuList.EmptyListExactly | internal/hostlimits/limits.go:247-249 | the list is empty iff all parts are blank |
| CpuList.BlanksDoNotCount | internal/hostlimits/limits.go:221-232 | blanks around parts and numbers are ignored |
| CpuList.AtoiExactly | internal/hostlimits/limits.go:228-241 | numbers are numerals with an optional sign, within 64 bits |
| CpuList.LoopEndsExactly | internal/hostlimits/limits.go:236-238 | with its wrapping variable the loop over a range ends iff the range does not end at the largest integer |
| CpuList.CountNeverEndsExactly | internal/hostlimits/limits.go:219-251 | counting does not return iff some part is such a range and all parts before it are well formed |
| CpuList.RangeToTheLargestNeverEnds | internal/hostlimits/limits.go:236-238 | from any first CPU, a range up to the largest integer is counted for ever |
| CpuList.UnionHoldsWhatPartsName | internal/hostlimits/limits.go:221-246 | the set counted is the union of what the parts name, and exists iff every part names a set |
| CpuList.CountIgnoresOrderAndRepetition | internal/hostlimits/limits.go:219-251 | the count depends on which parts occur, not on their order or number |
| CpuList.CpusAreNotNegative | internal/hostlimits/limits.go:226-244 | no negative CPU is counted, though ranges are not checked for it |
| CpuList.PositiveMin | internal/hostlimits/limits.go:253-265 | the least positive value, or zero when there is none |

## Left out

- Host, cgroup, NUMA, virtualization and storage discovery: file-system reads; their results are parameters.
- HTTP servers, proxying, request translation, authentication and logging: network plumbing.
- JSON, URL, time and regular-expression libraries: decoded values are taken as input, and the version and identifier patterns are written out as predicates; a marker's contents are kept as a decoded document with its spelling.
- File owners, directories, symbolic links and temporary-file names of the installer; systemctl, useradd and probes are steps that succeed or fail and touch none of the four files.
- Changes by others between the steps of one installer call: operator moves happen between calls, which may be cut off at any file operation.
- Single-field checks of manifests and descriptors that nothing else depends on: one flag each.
- The texts of plan reasons, warnings and errors: one constructor each.
- The calibration store is modelled as steps over a state rather than as methods of a class, because its property is about interleavings.
- Machines whose native integers are not 64 bits wide.
- Measuring bandwidth: a calibration result is any value.
- internal/admission, internal/benchmarkplan, internal/config, internal/deploymentprofile, internal/upstreamledger: request admission, benchmark plans, configuration parsing, deployment profiles and the ledger of upstream backends; they check single fields, filter lists or hold constants.
