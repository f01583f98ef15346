# A verified model of the VM import controller

The VM import controller takes a `VirtualMachineImport`, powers the source virtual machine off, exports its disks,
submits them as images, and creates a KubeVirt virtual machine. This Dafny project models that controller and the
data transformations that feed it, and proves what they guarantee. `dafny verify dfyconfig.toml` checks everything.

**The reconciler.** `ImportTypes` holds the import's status, the cluster and the answers of every call. The step
functions (`PowerAndExport`, `DiskImages`, `Reconciler`) say what one reconcile does, as a function of the status it
read and of the answers it gets. `Handler` is the same controller as the program writes it: an object edited in
place, clients with state, loops over the disk list; each method is proved equal to its step function.
`ImportMachine` declares which status may follow which, without any mention of calls, and the reconciler is proved
to refine it. `ImportSystem` adds what makes it hard: reconciles of stale versions, optimistic concurrency, effects
before the write, lost writes, crashes (the remaining calls fail and the write is lost), images that change or
vanish between reconciles, spec edits between reconciles, the clock, and the history of calls.

What is proved of it. `DiskPasses` and `Decisions` say exactly what each pass and each reconcile does, in terms of the
conditions, images and answers it reads, and `Evidence` lifts that to runs: every event of the history is true, and
every version has its reason. Beside them stand `ImportInvariants`, `PassHistory`, `RunSafety` (order of calls),
`ImageStore`, `Creation` (nothing twice), `Progress` (the rank), `Resubmission` and `GettingThrough` (when an import
is stuck, and exactly when it is not), and `WitnessRuns` (runs from the start that show the bounds and the dead
ends).

**The transformations.** `Conditions` (condition lists), `DiskVerdict` (the vote over the disks), `Network` (mapping
of networks), `DeviceId` and `VmwareExport` (device IDs, the two-pass disk map, both disk loops), `OpenstackExport`
(create and clean up, retries, NICs), `OvfUnits`, `OvfEnvelope` and `OvfMeaning` (units, the envelope fold, and what
it means field by field), over `Text` and `Integers` (the few string operations and the int64 arithmetic they use).

Calls are answered by values that the theorems quantify over. A call can fail, take effect and be reported as
failed, or answer anything its type allows. Times are nanoseconds; a stored timestamp keeps whole seconds
(section 5.6 of RFC 3339 allows fractions, the format used writes none).

**Where the code and its comments or documentation differ**, the model follows the code:

- `pkg/controllers/migration/helper.go:149` announces a re-export and a re-import. The clean-up drops the Failed mark
  only, so nothing is exported or submitted again (`Resubmission.ResubmittedNeverReady`); the exact condition under
  which a waiting import still gets through is `GettingThrough.GetsReadyIffSupplied`.
- `pkg/controllers/migration/helper.go:31` says that failures wait for all disks. A failed first disk does not
  (`DiskVerdict.FailedDoesNotWait`).
- `README.md:125` attaches every unmatched interface to the management network. Unmatched interfaces are dropped, and
  the pod network appears only if none matched (`Network.UnmatchedNicDropped`, `Network.AttachNetworks`).
- `pkg/controllers/migration/virtualmachine.go:955` returns a nil import with its error, which
  `pkg/controllers/migration/helper.go:165` dereferences when there is no source (`Reconciler.CrashChangesNothing`).
- `pkg/source/ova/client.go:478` parses an explicit factor of a quantity with 32 bits and ignores the error, so a
  factor from 2^31 on becomes 2^31 - 1 (`OvfUnits.FactorForm`).

## Model

| member | source | states |
|---|---|---|
| RunSafety.VmCreatedOnlyAfterImport | pkg/controllers/migration/virtualmachine.go:123-205 | in every run of the system (stale reads, failed calls, crashes between effect and write, lost or rejected writes): before a KubeVirt VM is created the history holds, in this order, an accepted shutdown or power off, an observation that the source was off, and a successful export, and the image behind every disk of the VM was seen imported |
| Evidence.VmNeedsRealImport | pkg/controllers/migration/virtualmachine.go:123-205 | the same in terms of what the source and the cluster said: the creation of a VM comes after a reconcile whose request the source accepted, one in which it answered that it is off, and one whose export succeeded, and for each image of the VM some reconcile up to then found it stored with a true ImageImported condition (Unknown is not enough) |
| Evidence.NewVmNeedsRealImport | pkg/controllers/migration/virtualmachine.go:653-723 | and so for every KubeVirt VM that exists after any run and did not at its start |
| Evidence.EveryEventTrue | pkg/controllers/migration/virtualmachine.go:111-208 | in every run each event of the history was recorded by one reconcile, and is true of the version it read, the cluster it found and the answers it got: the source said off, the image was imported, the deleted image was there and its disk failed, the volume was missing and its image a backing image, and so on |
| Evidence.RunRecords | pkg/controllers/migration/virtualmachine.go:586-832 | in every run no image, volume or VM appears that the history does not record |
| RunSafety.ExportOnlyOnEmptyList | pkg/controllers/migration/virtualmachine.go:474-517 | in every run the source is only ever asked to export while the disk list is empty, and after it was seen powered off; the VMware conversion loop over the whole list relies on this |
| RunSafety.ForcedPowerOffWaits | pkg/controllers/migration/virtualmachine.go:398-459 | in every run, however the user edits the spec meanwhile: PowerOff is never called on a source without it, and unless the spec that the calling reconcile read forces it, only more than the seconds that spec sets (60 if the setting is not positive), less one, after the source accepted a shutdown; the one second is lost to timestamps of whole seconds |
| RunSafety.RunIsSafe | pkg/controllers/migration/virtualmachine.go:111-208 | the history and every persisted version stay justified: each condition a version carries is backed by the calls and observations that came before it |
| PowerAndExport.PowerOffReadsStamp | pkg/controllers/migration/virtualmachine.go:398-459 | every PowerOff call of a step: the version read has no PoweringOff, and without force in the spec read it carries a ShutdownGuest stamp older than the seconds that spec sets, or than 60 |
| Decisions.PowerOffExactly | pkg/controllers/migration/virtualmachine.go:391-459 | both directions: a step calls PowerOff exactly if the source supports it, it was not called, and either the user forces it or the source was just seen running more than the set seconds (60 if not positive) after the stored second of its shutdown |
| ImportTypes.Timeout | pkg/apis/migration.harvesterhci.io/v1beta1/virtualmachines.go:164-170 | the user's setting, or 60 seconds if it is not positive |
| Decisions.ShutdownStamp | pkg/controllers/migration/virtualmachine.go:354-363 | the stored time of a shutdown is the whole second of the clock after the call |
| Decisions.StepCalls | pkg/controllers/migration/virtualmachine.go:391-521 | a SourceReady step makes exactly the calls of a flat table of cases, at exactly these times |
| Decisions.StepLeaves | pkg/controllers/migration/virtualmachine.go:391-521 | it makes exactly the conditions of its successful calls true, appends the source's disks field by field exactly if it exports, and fails exactly without source or client, on a refused request, an unanswered power state or an unreadable shutdown time |
| Decisions.ExportDecides | pkg/controllers/migration/helper.go:131-170 | a SourceReady reconcile writes nothing exactly in those cases, the missing source apart; MigrationFailed exactly without its source or with ExportFailed true afterwards; DisksExported exactly with Exported and not ExportFailed |
| Decisions.SubmitDecides | pkg/controllers/migration/helper.go:47-87 | a submit reconcile writes nothing exactly if the first disk that is not submitted blocks, ImportInvalid exactly for an empty list, DiskImagesSubmitted exactly with all submitted |
| Decisions.WatchDecides | pkg/controllers/migration/virtualmachine.go:137-153 | a watch reconcile writes DiskImagesReady exactly if every look finds its image and every disk is ready or its image imported, none failed; DiskImagesFailed exactly for a failed disk behind good ones; else nothing |
| Decisions.CreateVmMeans | pkg/controllers/migration/virtualmachine.go:653-723 | the VM is made exactly if the source is there, description and volumes work and no VM has the name; no error exactly if then it is found or its creation reported |
| Decisions.VmNeedsVolumes | pkg/controllers/migration/virtualmachine.go:771-832 | without an error every disk's image is there, and the volume of every backing image |
| Decisions.EndsExactly | pkg/controllers/migration/virtualmachine.go:111-208 | over all statuses: an import ends as invalid exactly on a failed preflight, a bad name or an empty disk list, and as failed exactly without a source where one is needed or with ExportFailed |
| Decisions.WritesExactly | pkg/controllers/migration/virtualmachine.go:111-208 | over all statuses: when a reconcile asks to write at all; in every other case the import is left to be tried again |
| Decisions.NamedBySanitizing | pkg/controllers/migration/virtualmachine.go:952-992 | the VM's name is what sanitizing answers and is changed by nothing else |
| Evidence.FailedForAReason | pkg/controllers/migration/helper.go:163-170 | in every run a version in MigrationFailed carries ExportFailed or was written by a reconcile that did not find its source; never for a call that merely failed |
| Evidence.InvalidForAReason | pkg/controllers/migration/helper.go:47-128 | in every run a version in ImportInvalid was written after a failed preflight, a bad name or an empty list |
| Evidence.ReadyForAReason | pkg/controllers/migration/virtualmachine.go:137-153 | in every run a version in DiskImagesReady was written by a reconcile that found each disk ready or its image imported, and none failed |
| Evidence.CreatedWithVolumes | pkg/controllers/migration/virtualmachine.go:771-832 | in every run, once a version says VirtualMachineCreated, the volume of every disk whose image was a backing image is there from then on |
| ImportMachine.HandleRefinesMachine | pkg/controllers/migration/virtualmachine.go:111-208 | whatever the cluster and the source answer, a status the reconciler asks to write is a successor, in the declared sequential machine, of the status it read |
| ImportMachine.ExportRefines | pkg/controllers/migration/helper.go:131-146 | a SourceReady pass either aborts or adds one condition in order, and its phase is read off the conditions |
| ImportMachine.SubmitStays | pkg/controllers/migration/virtualmachine.go:586-610 | the submit pass leaves submitted disks alone, gives the others an image and the Submitted mark and nothing else, and reports no error exactly when all are submitted afterwards |
| ImportMachine.RefreshStays | pkg/controllers/migration/virtualmachine.go:612-651 | the watch pass leaves ready disks alone and otherwise only sets Ready and Failed; names and images stay |
| ImportMachine.CleanStays | pkg/controllers/migration/virtualmachine.go:754-769 | the clean-up pass takes the Failed mark from failed disks and nothing else: Submitted and the deleted image's name stay |
| DiskPasses.SubmitMeans | pkg/controllers/migration/virtualmachine.go:586-610 | the submit pass turn by turn: each disk up to the first that blocks, in the cluster the turns before it left; an error exactly if one blocks |
| DiskPasses.CheckAndCreateMeans | pkg/controllers/migration/virtualmachine.go:869-950 | the listed image if there is one; an error without effect for several or a failing list; for none, a new image with the label, no condition and the import as owner |
| DiskPasses.ReadMeans | pkg/controllers/migration/virtualmachine.go:620-649 | a disk turns ready exactly if some ImageImported condition of its image is True, failed exactly if one is False with the reason ImportFailed |
| DiskPasses.RefreshMeans | pkg/controllers/migration/virtualmachine.go:612-651 | the watch pass has no error exactly if the image of every disk that is not ready is found, and then marks exactly so; each look it records is true of the stored image |
| DiskPasses.CleanMeans | pkg/controllers/migration/virtualmachine.go:754-769 | the clean-up works exactly if the delete of every failed disk's image does, and then removes exactly those images that do not linger; no other image is touched, however it ends |
| DiskPasses.PvcMeans | pkg/controllers/migration/virtualmachine.go:771-832 | the volume pass works exactly if every image is found and every wanted volume is there or can be made, and then adds exactly the volumes of the backing images |
| DiskPasses.TidyMeans | pkg/controllers/migration/virtualmachine.go:834-858 | tidying works exactly if every image is found and updated, and then exactly the disks' images have lost the import, all its entries, as owner; other owners stay in order |
| ImportSystem.RunRefinesMachine | pkg/controllers/migration/virtualmachine.go:111-208 | the persisted versions of any run, with stale reads and lost or rejected writes, are a run of the sequential machine, each computed from the one before it |
| ImportSystem.InvariantsCarryOver | pkg/controllers/migration/virtualmachine.go:111-208 | every invariant of the sequential machine holds of every version of every run |
| ImportSystem.VersionsKeep | pkg/controllers/migration/virtualmachine.go:391-521 | names, sizes, images of submitted disks and the timestamps of conditions are the same in every later version |
| ImportSystem.DiskListWrittenOnce | pkg/controllers/migration/virtualmachine.go:474-517 | the persisted list goes from empty to its final length in one write, together with the export's result, and never changes length again, resubmission included; the list of a failed export is only persisted with MigrationFailed |
| ImportSystem.ShutdownStampedOnce | pkg/controllers/migration/virtualmachine.go:354-363 | the ShutdownGuest timestamp of one version is that of all later ones |
| ImportInvariants.InvNext | pkg/controllers/migration/helper.go:47-87 | the per-status invariant is inductive: DNS-label name from SourceReady on; at least one disk and all submitted from DiskImagesSubmitted on; Failed marks exactly in DiskImagesFailed, and there some disk is failed and not ready; all disks ready from DiskImagesReady on; PoweredOff only after a request, Exported or ExportFailed only after PoweredOff and never both |
| ImportSystem.EveryVersionInv | pkg/controllers/migration/virtualmachine.go:123-205 | that invariant holds of every version ever persisted in every run |
| ImportInvariants.ListFilledByExport | pkg/controllers/migration/virtualmachine.go:504-517 | a write that lengthens the list starts from an empty one and carries the export's result |
| ImportInvariants.NextFollowsGraph | pkg/controllers/migration/virtualmachine.go:123-205 | phases follow the graph of the switch |
| ImageStore.RunIsTidy | pkg/controllers/migration/virtualmachine.go:626-649 | if images carry at most one ImageImported condition, no persisted disk is both ready and failed, in any run |
| Progress.BoundedPhaseChanges | pkg/controllers/migration/virtualmachine.go:123-205 | a run in which no later watch finds an image the controller deleted (it may linger unseen) changes the phase at most eight times and takes DiskImagesFailed to SourceReady at most once |
| Progress.WritePays | pkg/controllers/migration/helper.go:131-158 | the rank behind the bound: every write pays for its phase change and for a backward edge, the watch under the condition that it finds no deleted image |
| Progress.PromptNeverFinds | pkg/controllers/migration/virtualmachine.go:754-769 | every run whose deletes take effect at once is such a run, whatever the calls answer |
| Progress.RunFollowsGraph | pkg/controllers/migration/virtualmachine.go:123-205 | in every run, consecutive versions are an edge of the graph |
| WitnessRuns.LingeringImageLoops | pkg/controllers/migration/virtualmachine.go:754-769 | the bound's hypothesis is needed: with a deleted image that lingers and is found again, for every n some run from the start goes back n times |
| WitnessRuns.EightChangesHappen | pkg/controllers/migration/virtualmachine.go:123-205 | and the bound is met: a run from the start with prompt deletes, eight changes of phase and one backward edge |
| WitnessRuns.EightChangesWithLingering | pkg/controllers/migration/virtualmachine.go:754-769 | and met without prompt deletes: a run from the start whose deleted image lingers and leaves before the next watch, with eight changes and one backward edge |
| Resubmission.ResubmittedNeverReady | pkg/controllers/migration/helper.go:148-161 | in every run in which deleted images are never found again: from a step DiskImagesFailed to SourceReady on, no version gets past DiskImagesSubmitted (or MigrationFailed), against the announcement of another try |
| Resubmission.BackMeansDead | pkg/controllers/migration/virtualmachine.go:754-769 | in such a run a backward edge leaves, from then on, a submitted disk that is not ready and whose image the controller deleted |
| Resubmission.BackMeansStuck | pkg/controllers/migration/virtualmachine.go:754-769 | with prompt deletes the image of that disk is gone from the store and cannot come back, so the import is stuck whatever happens next |
| Resubmission.StuckForever | pkg/controllers/migration/virtualmachine.go:612-618 | from such a state every continuation stays in SourceReady, DisksExported, DiskImagesSubmitted or MigrationFailed |
| WitnessRuns.ImportsGetStuck | pkg/controllers/migration/virtualmachine.go:754-769 | such states are reached: a run from the start with prompt deletes |
| GettingThrough.GetsReadyIffSupplied | pkg/controllers/migration/virtualmachine.go:612-651 | the exact condition: in every run, an import with all its disks submitted that is in DiskImagesSubmitted, or was sent back to SourceReady or DisksExported, and whose disks name images that were made, has a continuation to DiskImagesReady if and only if every disk that is not ready still has its image |
| GettingThrough.SubmittedWaits | pkg/controllers/migration/helper.go:47-87 | every version in DiskImagesSubmitted, in any run, has disks and all of them submitted, so the condition speaks about all of them |
| GettingThrough.SeenImagesMade | pkg/controllers/migration/virtualmachine.go:586-610 | with a cache that sees the controller's own writes, the disks of such an import always name images that were made |
| Resubmission.LostDeleteWedges | pkg/controllers/migration/virtualmachine.go:754-769 | in DiskImagesFailed with the image of a failed disk gone, as after a delete whose status write was lost, the persisted status never changes again |
| WitnessRuns.ImportsGetOrphaned | pkg/controllers/migration/virtualmachine.go:754-769 | such states are reached: a run from the start with prompt deletes and one lost write |
| GettingThrough.CleanCanSucceed | pkg/controllers/migration/virtualmachine.go:754-769 | a clean-up pass can succeed, for some answers of the calls, if and only if the image of every failed disk is still there |
| GettingThrough.PromptCleanCanSucceed | pkg/controllers/migration/virtualmachine.go:754-769 | with prompt deletes it can if and only if, besides, no two failed disks share an image |
| GettingThrough.MovesOnIffImagesThere | pkg/controllers/migration/virtualmachine.go:754-769 | so an import in DiskImagesFailed whose disks name images that were made can ever change its status again if and only if the image of every failed disk is still there |
| Resubmission.RepairedDiskRetries | pkg/controllers/migration/virtualmachine.go:754-769 | a clean-up that drops Submitted as well would get the disk a new image under a new name |
| Progress.MissBlocksWatch | pkg/controllers/migration/virtualmachine.go:612-618 | one disk that is not ready and whose image is not found makes the whole watch pass fail |
| PowerAndExport.NoWedge | pkg/controllers/migration/virtualmachine.go:391-520 | from any object, user-edited conditions included: an error-free SourceReady step makes a condition true, leaves SourceReady, or was itself told by the source that it still runs |
| PowerAndExport.StepMoves | pkg/controllers/migration/virtualmachine.go:391-520 | a SourceReady step does nothing or makes exactly one condition true, in the order request, PoweredOff, Exported or ExportFailed; only the last touches the disk list |
| Creation.AtMostOneImagePerDisk | pkg/controllers/migration/virtualmachine.go:869-950 | with a cache that sees the controller's own writes and may still list removed images, and images left under the import's labels by an earlier import (at most one each): whatever fails, crashes, is stale or is lost, at most one live image carries the label of a disk |
| Creation.DistinctDisksDistinctImages | pkg/controllers/migration/virtualmachine.go:586-610 | with such a cache, such a start and injective labels, disks of different names never share an image, in any version of any run |
| Creation.FreshSeesOwn | pkg/controllers/migration/virtualmachine.go:886-900 | one lookup in a lister that is in step with the API server, or fails, sees its own writes |
| Creation.FreshRunSees | pkg/controllers/migration/virtualmachine.go:886-900 | so every run whose lists are in step or fail meets the condition of these theorems throughout |
| Creation.SecondImageNeedsStaleList | pkg/controllers/migration/virtualmachine.go:869-905 | a second image under a label is made exactly when the lister hides the first and nothing else stops the call |
| Creation.TwoImagesBlockSubmission | pkg/controllers/migration/virtualmachine.go:886-905 | two listed images under a label block the disk's submission |
| Creation.NothingMadeTwice | pkg/controllers/migration/virtualmachine.go:705-720 | in every run no image, volume or VM is made a second time under one name, and a version that says VirtualMachineCreated or Running stands for an existing VM of that name labelled as imported |
| Creation.AtMostOneVm | pkg/controllers/migration/virtualmachine.go:653-723 | in every run an import creates at most one VM, under any name |
| Creation.VolumesBelongToDisks | pkg/controllers/migration/virtualmachine.go:771-832 | in every run every volume made is named after the image of a disk of a persisted version in DiskImagesReady, and is made once |
| Creation.RunMakesFromVersions | pkg/controllers/migration/virtualmachine.go:653-832 | in every run every volume and VM made is made from a persisted version in DiskImagesReady: for a disk of it, under its name, over its disks' images |
| Creation.CreateVmObjects | pkg/controllers/migration/virtualmachine.go:653-723 | creating the VM makes at most one VM, last, under the import's name and only if none of that name was there; without an error one labelled as imported exists afterwards |
| DiskVerdict.EvaluateDiskImportStatus | pkg/controllers/migration/helper.go:15-45 | the counter loop answers Ready iff p = f = n, Failed iff p = f < n, else nothing, where p is the first not-ready disk, f the first failed one and n their number |
| DiskVerdict.ReadyVerdictExact | pkg/controllers/migration/helper.go:36-38 | Ready exactly when all disks are ready and none failed |
| DiskVerdict.FailedVerdictExact | pkg/controllers/migration/helper.go:40-42 | Failed exactly when some disk is failed and not ready and all disks before it are ready and not failed; later disks are not looked at |
| DiskVerdict.VerdictDecided | pkg/controllers/migration/helper.go:15-45 | exact whenever every disk is ready or failed but not both |
| DiskVerdict.FailedDoesNotWait | pkg/controllers/migration/helper.go:30-34 | a concrete pair: failed then pending is already DiskImagesFailed, pending then failed is undecided; the comment there says all disks are waited for |
| Handler.Controller.TriggerExport | pkg/controllers/migration/virtualmachine.go:391-521 | the whole power-off and export step on the object, equal to the step function |
| Handler.Controller.CheckAndCreateVirtualMachineImage | pkg/controllers/migration/virtualmachine.go:869-950 | finds the one image with the disk's label, or creates it |
| Handler.Controller.CreateVirtualMachineImages | pkg/controllers/migration/virtualmachine.go:586-610 | the submit loop, in place, up to the first error |
| Handler.Controller.ReadConditions | pkg/controllers/migration/virtualmachine.go:620-649 | the loop over an image's conditions |
| Handler.Controller.ReconcileVMIStatus | pkg/controllers/migration/virtualmachine.go:612-651 | the watch loop, in place |
| Handler.Controller.CleanupAndResubmit | pkg/controllers/migration/virtualmachine.go:754-769 | the delete loop, in place |
| Handler.Controller.FindAndCreatePVC | pkg/controllers/migration/virtualmachine.go:771-832 | the volume loop |
| Handler.Controller.CreateVirtualMachine | pkg/controllers/migration/virtualmachine.go:653-723 | generates, makes volumes, then finds or creates the VM |
| Handler.Controller.RemoveOwner | pkg/controllers/migration/virtualmachine.go:843-851 | drops exactly the import from the owner list |
| Handler.Controller.TidyUpObjects | pkg/controllers/migration/virtualmachine.go:834-858 | gives the images away one by one |
| Handler.Controller.AllDisksSubmitted | pkg/controllers/migration/helper.go:76-79 | the loop over the Submitted marks |
| Handler.Controller.RunVirtualMachineExport | pkg/controllers/migration/helper.go:131-146 | the export step, then the phase it ends in, and the abort |
| Handler.Controller.ReconcileDiskImageStatus | pkg/controllers/migration/helper.go:47-87 | an empty list is invalid; a partly submitted one is written when it changed |
| Handler.Controller.WatchDiskImages | pkg/controllers/migration/virtualmachine.go:137-153 | the watch step; without a verdict nothing is written |
| Handler.Controller.Dispatch | pkg/controllers/migration/virtualmachine.go:123-205 | the switch over all eleven statuses, equal to the reconcile function |
| Handler.Controller.OnVirtualMachineChange | pkg/controllers/migration/virtualmachine.go:111-208 | one reconcile on a deep copy: exactly the Reconcile step of the system, history, clock and version log included |
| Handler.Cluster.UpdateStatus | pkg/controllers/migration/virtualmachine.go:148-153 | rejects a write that is not based on the newest version |
| Reconciler.CrashChangesNothing | pkg/controllers/migration/helper.go:163-170 | the nil import that sanitizing hands to the abort without a source is the only crash, and it comes before any call or write |
| Conditions.GetCondition | pkg/util/conditions.go:10-18 | the first entry of a type and status |
| Conditions.ConditionExists | pkg/util/conditions.go:20-28 | whether there is one |
| Conditions.AddOrUpdateCondition | pkg/util/conditions.go:30-50 | rewrites every entry of the type, appends if there is none |
| Conditions.MergeConditions | pkg/util/conditions.go:52-58 | the update, one new condition after the other |
| Conditions.RemoveCondition | pkg/util/conditions.go:60-68 | exactly the entries of another type or status, in order |
| Conditions.FindPut | pkg/util/conditions.go:30-50 | after an update, lookups of the type find the new entry alone and all other lookups are unchanged |
| Conditions.FindDrop | pkg/util/conditions.go:60-68 | after a removal, that pair is not found and all other lookups are unchanged |
| Conditions.DropMeans | pkg/util/conditions.go:60-68 | a removal keeps exactly the entries of another type or status, in order |
| Conditions.PutIsMapUpdate | pkg/util/conditions.go:30-50 | an update is a map update |
| Conditions.PutRewritesItsType | pkg/util/conditions.go:30-50 | without uniqueness: every entry of the type and no other is rewritten, in place; uniqueness is kept |
| Conditions.MergeIsMapOverride | pkg/util/conditions.go:52-58 | a merge is map override |
| Conditions.MergeKeepsOrder | pkg/util/conditions.go:52-58 | a merge keeps uniqueness and the order of the types already listed |
| Network.CheckMappings | pkg/controllers/migration/virtualmachine.go:270-314 | accepts exactly distinct sources and destinations that name an existing network, "<name>" in the import's namespace or "<namespace>/<name>"; reports a doubled source, else the first destination that does not resolve, as malformed exactly with more than one slash |
| Network.MapNetworks | pkg/source/network.go:18-38 | the nested loops that overwrite the loop variable |
| Network.MapIsJoin | pkg/source/network.go:18-38 | for accepted mappings: the NICs with a mapping, in order, each once, with the looked-up destination and the overridden model |
| Network.MapSends | pkg/source/network.go:18-38 | the same field by field: exactly the NICs with a mapping, in order, with their name and MAC address, the mapping's destination, and its model or else their own |
| Network.DuplicateSourceDuplicatesNic | pkg/source/network.go:20-35 | with a source listed twice, which preflight refuses, its NIC would come out twice |
| Network.UnmatchedNicDropped | pkg/source/network.go:20-35 | of one mapped and one unmapped NIC, in either order, the unmapped one is attached to nothing |
| Network.GenerateNetworkInterfaceConfigs | pkg/source/network.go:40-83 | equally many networks and interfaces, never none, equal names position by position, distinct names, a pod network iff there is no NIC |
| Network.JoinEmptyIffNoneMapped | pkg/source/network.go:20-35 | the join is empty exactly when no NIC's network is mapped |
| Network.AttachNetworks | pkg/source/network.go:18-83 | end to end from the accepted mapping to the interfaces: for exactly the mapped NICs, in order, the destination of the mapping, the NIC's MAC address and the overridden or detected model; names pair up and are distinct, every attached network exists; a pod network appears exactly when nothing maps |
| DeviceId.ParseDeviceId | pkg/source/vmware/client.go:774-805 | the index walk over the last path segment |
| DeviceId.ParsePrinted | pkg/source/vmware/client.go:763-805 | inverts printing for every path, every controller name without "/", ":" or a final digit, and every bus and unit below 2^31; answers nothing for larger ones |
| DeviceId.AddressMeans | pkg/source/vmware/client.go:774-805 | conversely an answer means exactly one ":" after the last "/", digits before it that give the bus in [0, 2^31), and an int32 unit after it |
| DeviceId.AddressSpelled | pkg/source/vmware/client.go:774-805 | and every text of that form is answered with what it spells |
| Text.ParseSigned | pkg/source/vmware/client.go:784-787 | a number may carry a sign; below the lower bound the bound is answered, with an error |
| VmwareExport.MapDisks | pkg/source/vmware/client.go:235-269 | the two passes over the devices |
| VmwareExport.MapMeans | pkg/source/vmware/client.go:235-269 | with unique keys and addresses the map holds exactly the disks behind a known controller, each under its address |
| VmwareExport.MapIgnoresOrder | pkg/source/vmware/client.go:235-269 | and is the same for every permutation of the device list |
| VmwareExport.SharedAddressDependsOnOrder | pkg/source/vmware/client.go:742-745 | without unique addresses (the key has no controller type) the order decides: a concrete pair |
| VmwareExport.SizeOfMatchedDisk | pkg/source/vmware/client.go:271-294 | with unique keys and addresses a lease item is sized by the disk at the address its ID names: capacity times 1024 in int64 arithmetic; if that is zero or there is no such disk, the lease size |
| VmwareExport.SizeIsExact | pkg/source/vmware/client.go:276-283 | below 2^53 KB that is the capacity in bytes |
| VmwareExport.DownloadsMean | pkg/source/vmware/client.go:271-327 | the listed disks are the VMDK items, one each, in order: the path, prefixed exactly if it does not begin with the VM's name, that size, and the bus of the device ID |
| VmwareExport.DownloadDisks | pkg/source/vmware/client.go:271-337 | the download loop up to its first failing call: what it appends is exactly those disks of the items handled |
| VmwareExport.ConvertDisks | pkg/source/vmware/client.go:353-376 | the conversion loop, in place over the whole list, up to its first failing call: converted disks have the raw image's name and directory, and all else as before |
| VmwareExport.ExportDisks | pkg/source/vmware/client.go:271-377 | both loops in sequence, with what each leaves; the conversion starts only if all downloads succeeded |
| OpenstackExport.Tenant.WaitActive | pkg/source/openstack/client.go:385-446 | the retry loop |
| OpenstackExport.PollsMean | pkg/source/openstack/client.go:385-446 | it stops at the first active answer, and otherwise uses up exactly its attempts |
| OpenstackExport.Tenant.TryExport | pkg/source/openstack/client.go:318-474 | one volume: the calls in order, ended by the first failure, with what it holds then |
| OpenstackExport.Tenant.CleanUp | pkg/source/openstack/client.go:264-307 | the deferred function: image, volume, snapshot, each if held |
| OpenstackExport.Tenant.ExportVolume | pkg/source/openstack/client.go:255-476 | one volume with its clean-up |
| OpenstackExport.Tenant.ExportNext | pkg/source/openstack/client.go:465-471 | one turn of the loop: the disk is appended exactly on success |
| OpenstackExport.Tenant.Export | pkg/source/openstack/client.go:240-476 | all volumes in order up to the first failure: the log is the volumes' logs, the disks those of the successes |
| OpenstackExport.VolumeConserves | pkg/source/openstack/client.go:255-446 | wherever a volume fails: nothing is deleted before the clean-up, which asks to delete everything made once, newest first, and nothing else, exactly when every create call reached reported what it made; at most the configured number of polls |
| OpenstackExport.VolumeMeans | pkg/source/openstack/client.go:255-446 | call by call: what is made, in order, what is asked to be deleted, in the opposite order, and how often the image is polled |
| OpenstackExport.AttemptWorks | pkg/source/openstack/client.go:318-474 | a volume is exported exactly if each call is granted, each wait ends well, some poll within the count sees the image active, and it is downloaded and written |
| OpenstackExport.ExportConserves | pkg/source/openstack/client.go:240-476 | over any number of volumes up to a failing one, every resource is asked to be deleted as often as it was made, if the create calls reported what they made |
| OpenstackExport.DiskPerVolume | pkg/source/openstack/client.go:449-471 | one disk per exported volume, in order: named "<vm>-<index>.img", pairwise distinct, with the volume's size |
| OpenstackExport.FileNamesDiffer | pkg/source/openstack/client.go:827-830 | file names differ for different indices |
| OpenstackExport.SuccessesMean | pkg/source/openstack/client.go:240-476 | the volumes exported are exactly those before the first that does not work |
| OpenstackExport.GenerateNetworkInfos | pkg/source/openstack/client.go:754-790 | in any order of map iteration: one NIC per MAC, every reported address covered, nothing made up, an error exactly for values of another shape |
| OvfUnits.ParseCapacity | pkg/source/ova/client.go:439-467 | the parser of disk capacities |
| OvfUnits.ParseVirtualQuantity | pkg/source/ova/client.go:469-497 | the parser of item quantities |
| OvfUnits.ExponentialForm | pkg/source/ova/client.go:447-457 | for all b and e with b * 2^e < 2^63, printing b with "byte * 2^e" and parsing gives b * 2^e in both parsers |
| OvfUnits.FactorForm | pkg/source/ova/client.go:469-488 | for all b and f with b * f < 2^63, the explicit-factor form gives b * f in the capacity parser; in the quantity parser exactly when b = 0 or f < 2^31, above that 2^31 - 1 is used silently |
| OvfUnits.FactorWraps | pkg/source/ova/client.go:439-497 | beyond that range both products wrap around to int64 |
| OvfUnits.PowerForm | pkg/source/ova/client.go:447-457 | any base and exponent below 2^31: both parsers multiply by the power, in int64 arithmetic |
| OvfUnits.PlainForm | pkg/source/ova/client.go:439-445 | without units a printed number is read back, and a quantity is taken as it is |
| OvfUnits.NamedUnits | pkg/source/ova/client.go:47-56 | kb and kilobytes, mb, gb and tb likewise, in any capitalization, multiply by 2^10, 2^20, 2^30, 2^40 in int64 arithmetic, for every number, out-of-range and malformed ones included |
| OvfUnits.NamedIsPower | pkg/source/ova/client.go:447-464 | so they mean the same as "byte * 2^e" |
| OvfUnits.UnknownUnit | pkg/source/ova/client.go:459-464 | any other single word scales by one, in both parsers |
| OvfUnits.OtherForm | pkg/source/ova/client.go:446-464 | and so does any text that is neither one word nor three beginning with "byte *" |
| OvfEnvelope.MemoryInMebibytes | pkg/source/ova/client.go:581-583 | the memory of a quantity in "byte * 2^20" is that quantity |
| OvfEnvelope.ResolveReference | pkg/source/ova/client.go:508-515 | the first file with the ID |
| OvfEnvelope.FindResourceAllocationSettingData | pkg/source/ova/client.go:499-506 | the first item with the instance ID |
| OvfEnvelope.BaseOfHostResource | pkg/source/ova/client.go:622-625 | the disk ID is recovered from any host resource path, trailing slashes or not |
| OvfEnvelope.ApplyConfigs | pkg/source/ova/client.go:663-676 | the loop over the configuration entries |
| OvfEnvelope.ConfigMeans | pkg/source/ova/client.go:663-676 | one pass of it: UEFI is only ever set, TPM and secure boot take the last entry's word |
| OvfEnvelope.NestedIsTwoPasses | pkg/source/ova/client.go:571-677 | running the entries after every item equals one pass over the items and then one over the entries; without items it changes nothing |
| OvfEnvelope.FirmwareMeans | pkg/source/ova/client.go:653-676 | a section's word on the firmware in closed form: a TPM setting beats a virtual TPM device, an unreadable setting included |
| OvfMeaning.SectionFirmwareReads | pkg/source/ova/client.go:653-676 | the same in the keys and values of the envelope |
| OvfMeaning.EnvelopeUefi | pkg/source/ova/client.go:571-677 | over all sections, UEFI is set exactly if a section with an item asks for it |
| OvfEnvelope.HardwareMeans | pkg/source/ova/client.go:578-583 | the last processor item (mod 2^32) and the last memory item decide |
| OvfEnvelope.NicsMean | pkg/source/ova/client.go:584-619 | one interface per ethernet adapter, in order |
| OvfMeaning.NicsRead | pkg/source/ova/client.go:584-619 | field by field: the first connection, the address if allocated automatically, and the model its subtype names in any capitalization, or else the default |
| OvfEnvelope.JoinMeans | pkg/source/ova/client.go:620-648 | a drive gives one row for each disk with its ID whose file resolves, in the order of the disks |
| OvfMeaning.DriveRows | pkg/source/ova/client.go:620-648 | field by field: the location of the first file with the disk's reference, the disk's capacity, and the drive's bus |
| OvfMeaning.BusMeans | pkg/source/ova/client.go:629-638 | the bus is that of the first item that bears the parent's ID, else the default |
| OvfMeaning.DetectMeans | pkg/source/ova/client.go:518-560 | a controller's bus by the words in its subtype, or by its type if it has none |
| OvfEnvelope.JoinOnce | pkg/source/ova/client.go:620-648 | with unique disk IDs: one row if disk and file are there, none otherwise |
| OvfEnvelope.JoinIsOrderedSelection | pkg/source/ova/client.go:620-697 | and the list is the resolvable drives' rows, one each, in order |
| OvfEnvelope.RepeatedIdRepeatsDisk | pkg/source/ova/client.go:623-648 | two disks under one ID give their drive two rows |
| OvfEnvelope.JoinDrive | pkg/source/ova/client.go:620-648 | the block that joins a drive, with its exact panic condition |
| OvfEnvelope.ParseItem | pkg/source/ova/client.go:576-650 | the switch on an item's type, with its exact panic condition |
| OvfEnvelope.ParseItems | pkg/source/ova/client.go:574-677 | the item loop with the configuration loop inside |
| OvfEnvelope.ParseStorageItems | pkg/source/ova/client.go:679-697 | the storage item loop; parents are looked up among the plain items |
| OvfEnvelope.ParseSection | pkg/source/ova/client.go:572-701 | one hardware section |
| OvfEnvelope.ParseEnvelope | pkg/source/ova/client.go:562-705 | the whole parser: a panic exactly on an envelope that lacks a field it dereferences, else every section applied in order |
| OvfEnvelope.EnvelopeFlattens | pkg/source/ova/client.go:562-705 | hardware and interfaces come from the one list of all items, disks from the one list of all drives: items before storage items, section by section |
| OvfMeaning.SectionDrivesMean | pkg/source/ova/client.go:574-697 | a section's drives are the disk drives among its items and then its storage items, with parents among the plain items |
| OvfMeaning.SectionsConcat | pkg/source/ova/client.go:572-701 | and those of an envelope are those of its sections, one after the other |
| OvfMeaning.OneSection | pkg/source/ova/client.go:572-701 | of a single section, its own |

## Left out

- User edits during a run: the spec fields that say whether and when to power off, and the source's support for it, are read anew by each reconcile and may change at any time; the rest of the spec enters through the answers of the calls that use it. Users do not write the status or delete volumes or virtual machines. `PowerAndExport.NoWedge` and the other single-step lemmas hold for any object.
- Deletion of an import, the clean-up of temporary files and the image watch (`OnVirtualMachineRemove`, `triggerCleanup`, `ReconcileVMI`): they do not touch the status.
- A crash is not a step of its own: it is a reconcile whose remaining calls fail without effect and whose write is lost.
- The new VM: the claims of its disks are modelled, in order; the names, boot order and bus of its disks follow from the position and the disk's bus, and its description is an answer.
- Generated image names are unique, as the API server makes them; a create call with a used name fails.
- The model has one namespace, and other imports take part only as images, volumes and virtual machines that are there at the start.
- Preflight checks other than the network mapping, `GenerateVirtualMachine`, storage class and backend choice: each is one answer of the outside.
- The label formatter and the DNS-label validator (section 2.1 of RFC 1123) are parameters of the configuration; injectivity of labels is a hypothesis where it is used.
- Creation.AtMostOneImagePerDisk: needs a cache that sees the controller's own writes, because with one that hides an image a second one is made (`Creation.SecondImageNeedsStaleList`).
- Creation.NothingMadeTwice: is by name, as the API server enforces it; that an import makes one VM under any name is `Creation.AtMostOneVm`.
- Progress.BoundedPhaseChanges: needs that no later watch finds an image that was deleted, because with one that is found again there is no bound (`WitnessRuns.LingeringImageLoops`).
- A reconcile with its effects and its write is one step of the system: two reconciles of an import do not overlap, as the work queue sees to, and images change between reconciles, not between two calls of one; the clock does advance between calls.
- Conditions.AddOrUpdateCondition: condition lists are values of type seq, so writing through a slice that two objects share is not modelled; the controller works on deep copies.
- `math.Pow` is a parameter that is exact on powers of two below 2^63 and arbitrary elsewhere; `strings.ToLower` and `strings.Fields` are modelled for ASCII letters and the Latin-1 spaces.
- OvfEnvelope.ParseEnvelope: takes the envelope as parsed by the OVF library; reading archives, checksums, downloads and the renaming of exported OVA disks are not part of this model.
- VmwareExport.ExportDisks: the file name and the bus type of a disk come from functions, because the string matching in `detectDiskBusType` is settled by reading it; leases, downloads and conversion are answers.
- OpenstackExport.GenerateNetworkInfos: an address entry without a MAC string, which stops the program, is not modelled.
- OpenstackExport.VolumeConserves: a create call that makes a resource and hands over no ID leaks it; the lemma says so as an exact condition. Whether a delete succeeds is not modelled, only that it is asked for.
- Source objects' own handlers (`openstack.go`, `ova.go`, `vmware.go` in the controller package), secrets, TLS, logging, the server, custom resource definitions and generated clients have one branch each, or do not touch what is modelled here.
