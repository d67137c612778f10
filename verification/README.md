# A model of the RAUC update core

RAUC updates embedded systems with redundant slots. This project models what decides
which slot boots, which slots are written, and what may be believed about their contents
after a crash, and proves that those decisions are right, or exactly when they are.

The parts, each in modules named after the source file or its component:

- **Boot selection** (`BootModel`, `Grub`, `Uboot`, `Barebox`, `Efi`, `Bootchooser`). Each
  bootloader backend is a class over its environment whose methods compute specified
  environments, write by write. An abstract machine tells which slots are good, disabled,
  retired and primary; GRUB, U-Boot and barebox refine it for any iteration order of the
  slot table, and EFI exactly under the condition of `Efi.Refines`. What each state means is
  told by the texts stored (`StateMeaning`, `PrimaryMeaning`), and a slot whose attempts the
  bootloader itself has used up is down (`Bootchooser.UsedUpStaysDown`).
- **Installation** (`InstallPlans`, `Install`, `InstallSteps`, `InstallTrace`). Plans match
  the images of the manifest with the target group. The default handler works on a storage
  of boot environment, slot contents and status file. `history` records every state the
  storage goes through, with the number of plans completed by then, so what holds of all
  of it holds at every crash. `vouched` records what slots may be booted
  with, and since when; `whole` what may be recorded as "ok". Its progress steps are emitted
  by its control flow, from what happens to it.
- **Artifact repository** (`ArtifactNames`, `ArtifactRefs`, `ArtifactDisk`, `ArtifactState`,
  `Artifacts`, `ArtifactInstall`). A table of artifacts and references, kept in step with a
  directory of files and links; again every state of the directory is recorded. Where a link
  leads is found by following its text, component by component.
  `Kind.spoiled` names the artifacts that a run found incomplete and held open; what is
  proved for the empty set is that every public link leads to a complete artifact.
- **Chunk hash index** (`HashIndex`). Sorting, binary search with duplicates, the validity
  window, and reuse for a shorter file, against a linear scan.
- **Progress** (`Progress`, `ProgressRuns`). A stack of weighted steps, and what any well
  nested run of steps reports.
- **Slots** (`SlotTree`, `TargetGroup`, `BundleFormats`). Parent links, their flattening,
  slot states and the choice of target slots; the list of accepted bundle formats.
- **Manifest** (`KeyFiles`, `Manifest`, `ManifestPrint`, `ManifestParse`, `ManifestFile`,
  `ManifestRoundTrip`, `ManifestFormat`). Printing fills a key file, parsing consumes one;
  parsing undoes printing. Which keys are printed, and which groups are accepted, is told by
  their names.
- **MBR, bundles, logs** (`Units`, `Mbr`, `Crypt`, `Bundle`, `EventLog`, with `Text`,
  `Collections` and `Wrappers` for all parts). Switching the boot partition and its CHS
  positions (section 5.2.1 of the UEFI Specification), sector encryption and bundle framing,
  log rotation.

What the source does in place is done in place here: classes with fields for its objects,
loops for its loops, each proved against a function of the old state. What is promised is
then proved of those functions. Subprocesses, ioctls, hashes and ciphers are parameters:
environments are maps, files are sequences of bytes, and a cipher is any pair of functions
of which one undoes the other. A step that can fail in the source does so by free choice,
and `troubled` records that one did: operations fail for no other reason than the stated ones.

Where the code and what it promises differ, the code is followed:

- The hash index walks back to the start of a run of equal chunks, except if that is the
  first entry of the table (`HashIndex.SearchMissesFirst`), and an index file longer than the
  data hides chunks (`HashIndex.LongIndexMissesChunk`). `HashIndex.SearchAgreesIff` has the exact
  condition, which needs no search.
- With EFI in BootOrder mode an activated slot is not primary while BootNext names another
  (`Efi.BootnextOverridesBootorder`, exactly: `Efi.SetPrimaryThenGetBootorder`). A slot that
  is listed twice stays good when marked bad (exactly: `Efi.MarkBadMeaning`). BootOrder and
  BootNext are in section 3.3 of the UEFI Specification.
- A system booted from a child slot can have that slot chosen as a target
  (`TargetGroup.BootedChildIsWritten`, exactly: `TargetGroup.BootedChildIsSparedIff`).
- `r_update_symlink` is described as atomic, but a crash between its two steps leaves a
  temporary link behind. That link is public, counts as a reference, and blocks every later
  change of its name (`Artifacts.ArtifactRepo.UpdateSymlink`, `ArtifactState.CommitThenRead`).
  A run reaches a state in which it dangles (`ArtifactInstall.LinkIsCutOff`,
  `ArtifactInstall.NothingIsPruned`, `ArtifactInstall.NoLinkIsChanged`,
  `ArtifactInstall.LeftOverDangles`); a successful installation makes it dangle exactly under
  the condition of `ArtifactInstall.InstallRun`. From a directory without such links no state
  of a run has a public link, temporary ones included, that leads to nothing.
- An artifact tree of which a removal left a part is reused if something has it open
  (`ArtifactInstall.IncompleteTreeIsReused`). A run ends in a good directory exactly if no
  artifact that is planned, and the last of its name, is in that state
  (`ArtifactInstall.OneRun`, for one plan `ArtifactInstall.PlanIsGoodIff`). For files this
  cannot happen (`ArtifactInstall.FilesAreNotSpoiled`).
- There is a plan for every variant of an artifact, whatever the variant of the system
  (`InstallPlans.ArtifactPlans`); exactly the last one of the manifest ends up linked
  (`ArtifactInstall.UniqueAfterPlans`, `ArtifactInstall.InstallRun`).
- Only a planned root is marked bad. A manifest for a child slot alone has it overwritten while
  its root can still be booted (exactly: `Install.RootsAreDownIff`).
- Without an index file, sizes and offsets of the hashes are computed in 32 bits, which is too
  little from 2^27 chunks on (exactly: `HashIndex.HashesFitIff`).
- Digests of artifacts are not checked when an artifact is written, but only lower-case
  hexadecimal ones are recognised when pruning (`ArtifactInstall.ForeignDigestDanglesIff`).
- The exit for a failing prune leaves a progress step open, and the next check aborts
  (`InstallSteps.PruneFailureAborts`, exactly: `InstallSteps.InstallRuns`).
- The end of an MBR region is computed in 64 bits without a check for wrap-around
  (`Mbr.WrapIsAccepted`, exactly: `Mbr.InsideIffNoWrap`).
- Chains of more than 101 parent links are rejected although they have no loop
  (`SlotTree.DepthLimit`, for one order `SlotTree.OrderSucceedsIff`).
- The up-to-date test compares missing digests as equal; it is justified exactly for images
  with a digest (`Install.SkipIsJustified`).

`dafny verify dfyconfig.toml` checks the whole project.

## Model

| member | source | states |
|---|---|---|
| BootModel.FindSlotUnique | kirkstone/local/rauc/src/bootchooser.c:586-607 | a configured slot is found again by its bootname, whatever the iteration order |
| BootModel.DefaultIsThree | kirkstone/local/rauc/src/bootchooser.c:13-24 | three attempts for a slot, unless another positive number is configured |
| BootModel.BootchooserOrderPrimary | kirkstone/local/rauc/src/bootchooser.c:35-58 | the joined boot order names the chosen slot first, then all other bootable slots, each once |
| BootModel.PrimaryFirstSplits | kirkstone/local/rauc/src/bootchooser.c:35-58 | splitting the joined order gives the names back, and every bootable slot is among them |
| BootModel.BadStaysBad | kirkstone/local/rauc/src/bootchooser.c:1698-1812 | over any run of the abstract machine, a disabled slot is neither good nor primary as long as only other slots are operated on (marking it bad again is allowed) |
| BootModel.RetiredUntilMadePrimary | kirkstone/local/rauc/src/bootchooser.c:796-859 | a retired slot stays bad and is never primary until it is made primary, even if it is marked good |
| BootModel.GoodStaysGood | kirkstone/local/rauc/src/bootchooser.c:1698-1812 | a good slot stays good in every state of a run that never marks it bad |
| BootModel.BadAfterMarking | kirkstone/local/rauc/src/bootchooser.c:1698-1736 | after a run's first operation marked a slot bad, it is bad and not primary at every later write |
| BootModel.RetiredAfterMarking | kirkstone/local/rauc/src/bootchooser.c:796-859 | if that operation retired it, only making it primary ends this |
| Grub.FirstGoodMeaning | kirkstone/local/rauc/src/bootchooser.c:561-635 | the primary slot is the first configured name of ORDER with OK = 1 and TRY = 0, and all configured names before it are readable and not good |
| Grub.StateMeaning | kirkstone/local/rauc/src/bootchooser.c:484-532 | a slot is good if and only if it is listed in ORDER, the value under its name and _OK reads as 1, and that under its name and _TRY as 0; an error if and only if ORDER is missing, or it is listed and one of the two is |
| Grub.PrimaryMeaning | kirkstone/local/rauc/src/bootchooser.c:561-635 | a slot is primary if and only if its name is the first configured one of ORDER whose values say so, and all configured ones before it have both values stored |
| Grub.TriedIsDisabled | kirkstone/local/rauc/src/bootchooser.c:586-616 | once the bootloader has stored a pending attempt the slot is neither good nor primary |
| Grub.AfterStateFlags | kirkstone/local/rauc/src/bootchooser.c:535-558 | marking a slot changes only the flags of that slot, and they then read as good or bad as asked; ORDER and all others keep their values |
| Grub.SetPrimaryThenGet | kirkstone/local/rauc/src/bootchooser.c:638-659 | set_primary then get_primary returns the slot, in state good, for any two iteration orders of the slot table |
| Grub.Refines | kirkstone/local/rauc/src/bootchooser.c:535-659 | every operation is one write, and that write is a step of the abstract machine |
| Grub.OthersKeepState | kirkstone/local/rauc/src/bootchooser.c:535-558 | marking a slot changes what get_state reports, errors included, of no other slot |
| Grub.Backend.GetState | kirkstone/local/rauc/src/bootchooser.c:484-532 | returns the state the environment encodes, an error if a flag is missing |
| Grub.Backend.SetState | kirkstone/local/rauc/src/bootchooser.c:535-558 | stores the environment of the specification in one write |
| Grub.Backend.GetPrimary | kirkstone/local/rauc/src/bootchooser.c:561-635 | the scan of ORDER returns the first good configured slot, or an error |
| Grub.Backend.SetPrimary | kirkstone/local/rauc/src/bootchooser.c:638-659 | stores ORDER and both flags in one write |
| Uboot.SetPrimaryThenGet | kirkstone/local/rauc/src/bootchooser.c:862-976 | after both writes of set_primary, get_primary returns the slot and it is good, for any two iteration orders and any configured number of attempts |
| Uboot.StateMeaning | kirkstone/local/rauc/src/bootchooser.c:753-793 | a slot is good if and only if it is listed in BOOT_ORDER and BOOT_<name>_LEFT reads as a positive hexadecimal number; an error if and only if BOOT_ORDER is missing, or it is listed without a counter |
| Uboot.PrimaryMeaning | kirkstone/local/rauc/src/bootchooser.c:862-917 | a slot is primary if and only if its name is the first configured one of BOOT_ORDER with attempts left |
| Uboot.SpentIsDisabled | kirkstone/local/rauc/src/bootchooser.c:753-793 | once the bootloader has used up the attempts the slot is neither good nor primary |
| Uboot.RefinesUnlist | kirkstone/local/rauc/src/bootchooser.c:796-859 | dropping a name from BOOT_ORDER makes this slot bad and retired, and changes no other slot |
| Uboot.RefinesZero | kirkstone/local/rauc/src/bootchooser.c:796-859 | storing a zero counter makes this slot bad and changes no other slot |
| Uboot.RefinesRaise | kirkstone/local/rauc/src/bootchooser.c:796-859 | storing a positive counter can make only this slot good |
| Uboot.MarkedBadTwice | kirkstone/local/rauc/src/bootchooser.c:796-859 | the two writes of marking bad together are one marking |
| Uboot.Refines | kirkstone/local/rauc/src/bootchooser.c:796-976 | after every single write of every operation the abstract state has made a step, the last write completing it; with a readable BOOT_ORDER marking bad retires the slot from the first write on |
| Uboot.OthersKeepState | kirkstone/local/rauc/src/bootchooser.c:796-859 | marking a slot changes what get_state reports, errors included, of no other slot, at either write |
| Uboot.StaysListedIff | kirkstone/local/rauc/src/bootchooser.c:796-859 | unlisting a slot stores an empty order if and only if no other slot was listed |
| Uboot.Backend.GetState | kirkstone/local/rauc/src/bootchooser.c:753-793 | listed in BOOT_ORDER and a positive hexadecimal counter, with the error cases of the code |
| Uboot.Backend.SetState | kirkstone/local/rauc/src/bootchooser.c:796-859 | the environments stored are exactly the specified ones, in order |
| Uboot.Backend.GetPrimary | kirkstone/local/rauc/src/bootchooser.c:862-917 | the first listed configured slot with attempts left |
| Uboot.Backend.SetPrimary | kirkstone/local/rauc/src/bootchooser.c:920-976 | two stores: the counter, then the order with the slot in front |
| Barebox.BestMeaning | kirkstone/local/rauc/src/bootchooser.c:239-278 | the loop's choice is the first slot of the highest priority among those with priority and attempts left |
| Barebox.PrimaryMeaning | kirkstone/local/rauc/src/bootchooser.c:239-278 | get_primary succeeds if and only if all slots are readable and one is eligible, and returns the winner |
| Barebox.WinnerIsPrimary | kirkstone/local/rauc/src/bootchooser.c:239-278 | a winner is returned, so there is only one |
| Barebox.StateMeaning | kirkstone/local/rauc/src/bootchooser.c:67-298 | a slot is good if and only if the values under its two names read as positive 32-bit numbers; its state can be told if and only if both read as numbers |
| Barebox.PrimaryStores | kirkstone/local/rauc/src/bootchooser.c:301-351 | after set_primary the slot has priority 20 and its attempts, every slot of priority 0 still has 0, and all others have 10 and the attempts they had |
| Barebox.SpentIsDisabled | kirkstone/local/rauc/src/bootchooser.c:282-298 | once the bootloader has used up the attempts the slot is neither good nor primary |
| Barebox.SetPrimaryThenGet | kirkstone/local/rauc/src/bootchooser.c:301-351 | set_primary with readable slots makes the slot primary and good, and turns no other slot bad, for any two iteration orders |
| Barebox.RefinesMarkBad | kirkstone/local/rauc/src/bootchooser.c:207-236 | marking bad zeroes priority and attempts: this slot is disabled and retired, and no other slot changes |
| Barebox.RefinesMarkGood | kirkstone/local/rauc/src/bootchooser.c:207-236 | marking good restores the attempts of this slot only; a slot of priority zero stays bad |
| Barebox.Refines | kirkstone/local/rauc/src/bootchooser.c:207-351 | every operation is at most one write, and a step of the abstract machine |
| Barebox.OthersKeepState | kirkstone/local/rauc/src/bootchooser.c:207-236 | marking a slot changes what get_state reports, errors included, of no other slot |
| Barebox.Backend.StateGet | kirkstone/local/rauc/src/bootchooser.c:67-157 | succeeds if and only if both variables are readable 32-bit numbers |
| Barebox.Backend.GetState | kirkstone/local/rauc/src/bootchooser.c:282-298 | good if and only if priority and attempts are positive |
| Barebox.Backend.SetState | kirkstone/local/rauc/src/bootchooser.c:207-236 | stores the specified environment |
| Barebox.Backend.GetPrimary | kirkstone/local/rauc/src/bootchooser.c:239-278 | the loop over the slots returns the winner or an error |
| Barebox.Backend.UsablePriority | kirkstone/local/rauc/src/bootchooser.c:239-278 | the priority of a slot with attempts left, 0 without, or an error |
| Barebox.Backend.PriorityFor | kirkstone/local/rauc/src/bootchooser.c:301-351 | 20 for the slot, 10 for any other that is not disabled, or an error |
| Barebox.Backend.SetPrimary | kirkstone/local/rauc/src/bootchooser.c:301-351 | succeeds exactly if all slots are readable, otherwise nothing is stored |
| Efi.SetPrimaryThenGetBootnext | kirkstone/local/rauc/src/bootchooser.c:1229-1264 | in BootNext mode set_primary then get_primary returns the slot, for any iteration order |
| Efi.SetPrimaryThenGetBootorder | kirkstone/local/rauc/src/bootchooser.c:1268-1332 | in BootOrder mode it does if and only if BootNext names no other configured slot |
| Efi.BootnextOverridesBootorder | kirkstone/local/rauc/src/bootchooser.c:1349-1398 | a firmware state in which activation through BootOrder leaves the other slot primary |
| Efi.MarkBadMeaning | kirkstone/local/rauc/src/bootchooser.c:1334-1347 | after marking bad the slot is bad if and only if at most one listed entry has its name; it is still primary exactly if BootNext selects it and the order is not emptied, or BootNext selects nothing and a second entry of its name comes before those of all other slots |
| Efi.PrimaryIs | kirkstone/local/rauc/src/bootchooser.c:1349-1398 | get_primary returns the slot of BootNext, or if it selects none, the first listed one |
| Efi.WfIff | kirkstone/local/rauc/src/bootchooser.c:1349-1454 | what is primary is also good if and only if BootNext selects nothing, or a listed slot |
| Efi.Refines | kirkstone/local/rauc/src/bootchooser.c:1229-1347 | in both modes and from any firmware state, a successful operation is a step of the abstract machine if and only if: BootNext mode, the slot is listed; BootOrder mode, BootNext selects no other slot; marking good, always; marking bad, the name is listed at most once and it is not all that is listed while BootNext selects another slot |
| Efi.StaysWfIff | kirkstone/local/rauc/src/bootchooser.c:1229-1347 | when this holds after an operation, in both modes, told from the state before it |
| Efi.SettledRefines | kirkstone/local/rauc/src/bootchooser.c:1268-1347 | in BootOrder mode, from a settled state (BootNext selects nothing, no name listed twice), every operation is a step of the abstract machine and leaves a settled state |
| Efi.RunIsAbstract | kirkstone/local/rauc/src/bootchooser.c:1268-1347 | any run in BootOrder mode that starts settled is a run of the abstract machine, so what is proved of its runs holds |
| Efi.Backend.BootorderGet | kirkstone/local/rauc/src/bootchooser.c:1088-1227 | entries, order and BootNext as the boot manager lists them; an empty order cannot be read |
| Efi.Backend.SetTempPrimary | kirkstone/local/rauc/src/bootchooser.c:1229-1264 | sets BootNext to the entry of this name, fails without one |
| Efi.Backend.ModifyPersistentBootorder | kirkstone/local/rauc/src/bootchooser.c:1268-1332 | removes the first entry of the name from BootOrder or puts it in front, fails without changing anything |
| Efi.Backend.SetState | kirkstone/local/rauc/src/bootchooser.c:1334-1347 | a good slot is put in front, a bad one is removed |
| Efi.Backend.GetState | kirkstone/local/rauc/src/bootchooser.c:1426-1454 | good if and only if listed in BootOrder |
| Efi.Backend.GetPrimary | kirkstone/local/rauc/src/bootchooser.c:1349-1398 | the first configured slot of BootNext followed by BootOrder |
| Efi.Backend.SetPrimary | kirkstone/local/rauc/src/bootchooser.c:1400-1422 | BootNext or BootOrder, as configured |
| Bootchooser.ViewMeaning | kirkstone/local/rauc/src/bootchooser.c:1657-1772 | the abstract state says exactly what get_state and get_primary report |
| Bootchooser.Refines | kirkstone/local/rauc/src/bootchooser.c:1698-1812 | GRUB, U-Boot and barebox refine one abstract boot-selection machine, write by write and for any iteration order |
| Bootchooser.OthersKeepState | kirkstone/local/rauc/src/bootchooser.c:1698-1736 | set_state changes what get_state reports, errors included, of no other slot, at any of its writes, in any of the three |
| Bootchooser.SetPrimaryThenGet | kirkstone/local/rauc/src/bootchooser.c:1738-1812 | set_primary followed by get_primary returns the slot through any of them |
| Bootchooser.RunIsAbstract | kirkstone/local/rauc/src/bootchooser.c:1698-1812 | any run of stored environments, cut off at any write, is a run of the abstract machine |
| Bootchooser.MarkedBadStaysBad | kirkstone/local/rauc/src/bootchooser.c:1698-1736 | a slot marked bad is never reported good or primary while only other slots are operated on |
| Bootchooser.OnlySetPrimaryRevives | kirkstone/local/rauc/src/bootchooser.c:796-859 | in barebox, and in U-Boot if BOOT_ORDER was readable, only set_primary on the slot makes it good again |
| Bootchooser.UsedUpStaysDown | kirkstone/local/rauc/src/bootchooser.c:484-793 | a slot whose attempts the bootloader has used up (in GRUB: whose attempt is pending) is never reported good or primary while only other slots are operated on, or it is marked bad |
| Bootchooser.GrubMarkGoodRevives | kirkstone/local/rauc/src/bootchooser.c:535-558 | with GRUB marking good is enough to bring it back |
| Install.SkipIsJustified | kirkstone/local/rauc/src/install.c:1113-1134 | with honest statuses the up-to-date test implies that the slot holds the image, if and only if the image has a digest |
| Install.GetBootMarkSlot | kirkstone/local/rauc/src/install.c:1213-1241 | no slot exactly if no plan has a bootable root slot; the only one there is; an abort exactly if there are two |
| Install.AfterMarkBad | kirkstone/local/rauc/src/install.c:1440-1449 | every environment stored by marking the target bad has it down already, and no other good slot turns bad |
| Install.AfterMakePrimary | kirkstone/local/rauc/src/install.c:1484-1496 | no environment stored by activating the target turns another good slot bad |
| Install.RootsAreDownIff | kirkstone/local/rauc/src/install.c:1213-1241 | while slots are written, the roots above them (having been good) are down if and only if each of them is planned itself: slots with a parent are not marked |
| Install.PlannedIsFenced | kirkstone/local/rauc/src/install.c:1440-1473 | with the target down, no planned slot can be turned good by an operation on another one |
| Install.BootingKeepsFit | kirkstone/local/rauc/src/install.c:1440-1496 | marking bad, or an operation on a slot that is vouched for, leaves every slot that is not disabled with vouched content, at each of its writes |
| Install.WritingKeepsFit | kirkstone/local/rauc/src/install.c:1137-1179 | so does writing to a slot that is disabled |
| Install.BootableIsVouched | kirkstone/local/rauc/src/bootchooser.c:1657-1772 | then what is reported good or primary is vouched for |
| Install.Installer.LoadStatus | kirkstone/local/rauc/src/status_file.c:211-253 | every slot without a status in memory gets the one of the status file, others keep theirs |
| Install.Installer.SaveStatus | kirkstone/local/rauc/src/status_file.c:367-403 | the status file becomes what is in memory, in one step, or stays as it was |
| Install.Installer.WriteContent | kirkstone/local/rauc/src/install.c:1137-1179 | content changes only while neither memory nor file vouches for the slot, and while it is no slot that can boot |
| Install.Installer.UpdateSlot | kirkstone/local/rauc/src/install.c:1177-1195 | the slot passes through any contents, and holds the image on success; nothing else is written, no status vouches for it meanwhile, and it fails only if something outside failed |
| Install.Installer.WriteParts | kirkstone/local/rauc/src/install.c:1177-1195 | any number of writes of anything; in every state on the way the saved status of the slot is not "ok" |
| Install.Installer.MarkPending | kirkstone/local/rauc/src/install.c:1137-1160 | on success the file says "pending" without a digest and memory says "update"; other statuses keep their values |
| Install.Installer.RecordStatus | kirkstone/local/rauc/src/install.c:1066-1086 | records outcome and digest of this slot; an "ok" with a digest requires that the slot holds it |
| Install.Installer.WriteAndRecord | kirkstone/local/rauc/src/install.c:1177-1206 | if the handler succeeds the slot holds the image and memory says "ok", if it fails memory says "failed", both with the digest of the image; the status file says the same, or "pending" if it could not be written; it was never "ok" before the image was complete |
| Install.Installer.Overwrite | kirkstone/local/rauc/src/install.c:1137-1206 | a slot that is not up to date: in no state from the first write until the image is complete is its saved status "ok", with or without a digest; an update that has begun ends recorded as "failed", or complete with only the status file not written |
| Install.Installer.SkipOrOverwrite | kirkstone/local/rauc/src/install.c:1113-1206 | an up-to-date slot keeps its content and is recorded again; any other one holds the image on success |
| Install.Installer.HandleSlotInstallPlan | kirkstone/local/rauc/src/install.c:1088-1206 | nothing is written if the slot is up to date; otherwise success means that it holds the image; success is recorded, a failure after the first write as well; in every state on the way a saved "ok", with or without a digest, stands for the content held before or the complete image; no other slot or environment changes at any write, and no record of another slot is lost; it fails only if something outside failed |
| Install.Installer.BootOperation | kirkstone/local/rauc/src/install.c:1440-1449 | stores the environments of one operation in order, and may stop after any of them |
| Install.Installer.StoreAll | kirkstone/local/rauc/src/install.c:1440-1449 | the environments are stored one after the other, up to the first that fails |
| Install.Installer.HandleSlotSafely | kirkstone/local/rauc/src/install.c:1088-1206 | a slot plan while the target is down passes through safe states only |
| Install.Installer.HandlePlannedSlot | kirkstone/local/rauc/src/install.c:1457-1473 | the slot plan of the loop: it and all plans before are in place and recorded |
| Install.Installer.HandleNext | kirkstone/local/rauc/src/install.c:1457-1473 | one more plan completed, in place and recorded, and none before it undone; the history tells so |
| Install.Installer.MarkTargetBad | kirkstone/local/rauc/src/install.c:1440-1449 | the first thing stored has the target down; no other slot that was good turns bad |
| Install.Installer.SetPrimary | kirkstone/local/rauc/src/mark.c:129-161 | with all plans done, every environment stored is safe, and success makes the slot primary |
| Install.Installer.HandlePlans | kirkstone/local/rauc/src/install.c:1457-1473 | while the target is down every state on the way is safe; on success every plan, those of artifacts included, is completed, every slot image with a digest is in place, and every slot is recorded as "ok" in memory and in the status file |
| Install.Installer.DefaultHandler | kirkstone/local/rauc/src/install.c:1420-1499 | in every state of the storage from start to end, the target is down (and disabled, so that no operation on another slot revives it), or all plans (those of artifacts, and of images without a digest, included) have succeeded and are recorded; slots that were good and are not the target stay good; on success the target is primary, or down if it is not to be activated; what is newly vouched for is what planned slots held when all plans had succeeded; it fails only if something outside failed, two slots would be marked, or the target cannot be made primary |
| Install.Installer.Prepare | kirkstone/local/rauc/src/install.c:1427-1449 | on success the target is down and there is no other; without a target nothing is stored |
| Install.Installer.CarryOut | kirkstone/local/rauc/src/install.c:1451-1473 | all plans, and what is vouched for once they have succeeded: the contents of the planned slots at that time |
| Install.Installer.Proceed | kirkstone/local/rauc/src/install.c:1451-1499 | with the target down: plans, pruning and activation, through safe states only; it fails only if something outside failed or the target cannot be made primary |
| Install.Installer.Finish | kirkstone/local/rauc/src/install.c:1475-1499 | with all plans done: on success the target is primary, or still down if it is not to be activated |
| Install.Installer.MarkByHand | kirkstone/local/rauc/src/mark.c:129-199 | marking any slot bad, or one that can boot good or active, stores the environments of that operation and vouches for nothing new |
| Install.Installer.InstallOnce | kirkstone/local/rauc/src/install.c:1420-1499 | one installation, cut off at any write or not |
| Install.Installer.Activate | kirkstone/local/rauc/src/mark.c:129-161 | with all plans done, every state on the way is safe, all plans stay done, and success makes the target primary; a failing status save is ignored |
| Install.Installer.Crash | kirkstone/local/rauc/src/install.c:1137-1140 | the process restarts, without memory, on any state the storage went through |
| Install.Installer.Lifetime | kirkstone/local/rauc/src/install.c:1088-1499 | over any number of installations and markings by hand between them, each cut off at any write: a persisted "ok" with digest d implies that the slot holds contents with digest d; a persisted "ok" of any kind implies that it holds what it held at first under an "ok", or a complete planned image; and a slot that is good or primary at any time holds what it held at first, if it was not disabled then, or what it held at an earlier time when all plans of an installation for it had succeeded |
| InstallSteps.PlanStepsNested | kirkstone/local/rauc/src/install.c:1098-1197 | the steps of a slot or artifact plan are well nested and weigh 10 if it succeeds |
| InstallSteps.LoopStepsNested | kirkstone/local/rauc/src/install.c:1454-1473 | any mix of written, skipped and artifact plans weighs 10 for each plan inside update_slots |
| InstallSteps.HandlerStepsNested | kirkstone/local/rauc/src/install.c:1420-1499 | the handler's steps weigh 6 if it succeeds and never more |
| InstallSteps.RootStepsNested | kirkstone/local/rauc/src/install.c:1605-1727 | the steps below the root weigh exactly 10 if the installation succeeds and never more |
| InstallSteps.RootStepsShown | kirkstone/local/rauc/src/install.c:1605-1727 | which steps there are below the root, in which order, with weights 1, 1, 1, 1 and 6, tells how far the installation came and which of them failed |
| InstallSteps.InstallTreeNested | kirkstone/local/rauc/src/install.c:1589-1730 | the whole step tree is well nested for every outcome |
| InstallSteps.PruneFailureAborts | kirkstone/local/rauc/src/install.c:1476-1479 | the exit for failing to prune leaves update_slots open, and ending the root step then aborts |
| InstallSteps.InstallRuns | kirkstone/local/rauc/src/install.c:1589-1730 | an installation runs without an aborting check exactly unless it takes that exit; then it ends at 100 with an empty stack and never reports more, rising if explicit percentages rise |
| InstallTrace.PerformTree | kirkstone/local/rauc/src/context.c:614-790 | performing the calls of a step tree one by one is running the tree |
| InstallTrace.StepsOfWork | kirkstone/local/rauc/src/install.c:1088-1418 | from what happens to a plan: a check of weight 1, and exactly if it succeeds a copy (or a skip) of weight 9 with the percentages of the copy; the plan succeeds exactly if all it comes to does |
| InstallTrace.ScriptMeaning | kirkstone/local/rauc/src/install.c:1420-1730 | the outcome of an installation is decided by what happens to it |
| InstallTrace.Installation.HandleSlotPlan | kirkstone/local/rauc/src/install.c:1088-1206 | whatever happens to a slot plan, the calls are the steps of its outcome, and success is as told by what happened |
| InstallTrace.Installation.HandleArtifactPlan | kirkstone/local/rauc/src/install.c:1345-1418 | so for an artifact plan |
| InstallTrace.Installation.HandlePlans | kirkstone/local/rauc/src/install.c:1457-1473 | the loop emits those of the plans up to the first that fails |
| InstallTrace.Installation.DefaultHandler | kirkstone/local/rauc/src/install.c:1420-1481 | every exit of the handler emits a closed step, except exactly the one for a failing prune after all plans |
| InstallTrace.Installation.CheckBundle | kirkstone/local/rauc/src/bundle.c:2213-2456 | every exit of the bundle check emits a closed step |
| InstallTrace.Installation.BeforeHandler | kirkstone/local/rauc/src/install.c:1605-1690 | every exit before the handler emits the tabulated steps |
| InstallTrace.PerformInstall | kirkstone/local/rauc/src/install.c:1589-1730 | performing the calls of an installation is running its table, the step left open included |
| InstallTrace.Installation.DoInstallBundle | kirkstone/local/rauc/src/install.c:1589-1730 | whatever happens, the calls that the control flow makes are those of the table; performing them fails a check exactly if everything up to the handler succeeds, all plans do, and then pruning fails |
| InstallPlans.SlotClassesMeaning | kirkstone/local/rauc/src/install.c:294-317 | the collected classes are those of the images that are no artifacts, each once |
| InstallPlans.GetAllManifestSlotClasses | kirkstone/local/rauc/src/install.c:294-317 | the loop collects the specified classes |
| InstallPlans.ImageOfClass | kirkstone/local/rauc/src/install.c:431-456 | the image for a class is the first one of the system's variant, or if there is none, the first one without variant; there is none if and only if neither exists |
| InstallPlans.FindImage | kirkstone/local/rauc/src/install.c:436-456 | the scan finds that image |
| InstallPlans.PlanForIff | kirkstone/local/rauc/src/install.c:430-494 | a class is planned with an image and a target if and only if the image is the first one of the system's variant, or without any of those the first one without variant, the target is that of the class and writable, and a handler supports both |
| InstallPlans.SlotPlans | kirkstone/local/rauc/src/install.c:430-494 | one plan for each class, or an error if one class has no image, no writable target, or no handler |
| InstallPlans.ArtifactPlans | kirkstone/local/rauc/src/install.c:508-526 | one plan for each artifact image in order, or an error if a repository is missing |
| InstallPlans.ArtifactsConcat | kirkstone/local/rauc/src/install.c:508-526 | artifact plans are in the order of the manifest |
| InstallPlans.MakePlans | kirkstone/local/rauc/src/install.c:419-537 | plans are made if and only if the repositories are ready, there is an image, and every image can be planned; they are the specified ones |
| InstallPlans.OnePlanPerClass | kirkstone/local/rauc/src/install.c:430-494 | a class has a plan if and only if the manifest has a slot image for it, and never two |
| InstallPlans.OnePlanPerSlot | kirkstone/local/rauc/src/install.c:466-484 | no two plans write the same slot, and every slot is writable and gets an image of its class |
| InstallPlans.PlansSpareTheRunningSystem | kirkstone/local/rauc/src/install.c:419-537 | with the target group of a system booted from a root slot, or from outside, every planned slot is inactive |
| InstallPlans.PlansAreValid | kirkstone/local/rauc/src/install.c:1427-1433 | plans made from a target group are what the default handler is proved for, children having no bootname |
| HashIndex.LessTotal | kirkstone/local/rauc/src/hash_index.c:108-123 | comparing hashes is a strict total order |
| HashIndex.BeforeTransitive | kirkstone/local/rauc/src/hash_index.c:108-123 | comparing hashes, then chunk numbers, is transitive |
| HashIndex.SortedUnique | kirkstone/local/rauc/src/hash_index.c:131-148 | two sorted tables with the same chunk numbers are equal, so the lookup table is unique |
| HashIndex.BisectStep | kirkstone/local/rauc/src/hash_index.c:442-460 | one round of the search loop keeps its result, inside the bounds and without wrapping below zero |
| HashIndex.BisectComplete | kirkstone/local/rauc/src/hash_index.c:442-468 | the binary search finds the hash whenever it occurs between the bounds |
| HashIndex.OverlookedMeaning | kirkstone/local/rauc/src/hash_index.c:472-480 | the forward search begins after the right entry exactly if the hash is the smallest one and the search stopped past an entry of the window |
| HashIndex.SearchAgrees | kirkstone/local/rauc/src/hash_index.c:424-518 | the search returns what a linear scan for the lowest chunk number in the window returns, if and only if the bisection does not stop past an entry of the window in the run of the smallest hash, and no match is cut off by an index file longer than the data |
| HashIndex.StopsBelow | kirkstone/local/rauc/src/hash_index.c:442-468 | for the smallest hash the bisection stops at the first of (n-1)/2, ((n-1)/2-1)/2, ... below the number of matches, n being the number of entries |
| HashIndex.SearchAgreesIff | kirkstone/local/rauc/src/hash_index.c:424-518 | so the agreement is decided without a search: it holds if and only if no entry of the window comes before that place in the run of the smallest hash, and no match is cut off |
| HashIndex.SearchAgreesAboveFirst | kirkstone/local/rauc/src/hash_index.c:472-518 | complete agreement whenever the run of equal hashes does not start at position 0 and the table is complete |
| HashIndex.SearchMissesFirst | kirkstone/local/rauc/src/hash_index.c:472-480 | three equal chunks: the search returns chunk 1, the scan chunk 0 |
| HashIndex.LongIndexMissesChunk | kirkstone/local/rauc/src/hash_index.c:256-270 | an index file with two hashes for data of one chunk: the chunk is not found |
| HashIndex.ReusedLookup | kirkstone/local/rauc/src/hash_index.c:288-316 | the lookup table of a reused index is the original one without the entries at or above the new count |
| HashIndex.ReusedHitIsOriginalHitIff | kirkstone/local/rauc/src/hash_index.c:288-316 | every hit in the reused index, in any window, is a hit in the original, if and only if the original does not have all matches cut off by the length of its data |
| HashIndex.ReusedHitIsOriginalHit | kirkstone/local/rauc/src/hash_index.c:288-316 | so every hit in the reused index is one in an original that is not longer than its data |
| HashIndex.ChunkCount | kirkstone/local/rauc/src/hash_index.c:160-212 | the number of 4096-byte chunks, or 0 for exactly the sizes that are refused |
| HashIndex.OffsetWraps | kirkstone/local/rauc/src/hash_index.c:50-88 | offsets wrap around at every multiple of 2^27 chunks |
| HashIndex.HashesFitIff | kirkstone/local/rauc/src/hash_index.c:50-88 | with sizes and offsets in 32 bits, every hash gets its own place in the buffer if and only if there are less than 2^27 chunks |
| HashIndex.InsertNext | kirkstone/local/rauc/src/hash_index.c:131-148 | sorts one more chunk number into the sorted front |
| HashIndex.BuildLookup | kirkstone/local/rauc/src/hash_index.c:131-148 | the table is the sorted permutation of all chunk numbers |
| HashIndex.Locate | kirkstone/local/rauc/src/hash_index.c:442-468 | the search loop with 32-bit bounds terminates and computes the bisection |
| HashIndex.RaucHashIndex.constructor | kirkstone/local/rauc/src/hash_index.c:229-286 | the count is the smaller of data and index file; without a file the hashes are those of the data, as the code does below 2^27 chunks |
| HashIndex.RaucHashIndex.Reuse | kirkstone/local/rauc/src/hash_index.c:288-316 | count, hashes and table are the front part of the original |
| HashIndex.RaucHashIndex.WalkBack | kirkstone/local/rauc/src/hash_index.c:472-480 | walks to the start of the run, and not at all if that is position 0 |
| HashIndex.RaucHashIndex.WalkForward | kirkstone/local/rauc/src/hash_index.c:483-518 | the first entry of the run inside the validity window |
| HashIndex.RaucHashIndex.Find | kirkstone/local/rauc/src/hash_index.c:442-518 | the three loops together compute the search |
| HashIndex.RaucHashIndex.GetChunk | kirkstone/local/rauc/src/hash_index.c:424-551 | returns the found chunk's data, checked against the hash unless switched off, with the error of the code in every other case |
| Progress.Context.SendProgress | kirkstone/local/rauc/src/context.c:567-612 | reports the sum of the finished shares, and aborts if it exceeds 100 |
| Progress.Context.BeginStepWeighted | kirkstone/local/rauc/src/context.c:620-665 | the new step's share of its parent, or an abort, as specified |
| Progress.Context.SetPercentage | kirkstone/local/rauc/src/context.c:757-791 | credits the difference to the last explicit percentage, or aborts |
| Progress.Context.CreditParent | kirkstone/local/rauc/src/context.c:697-755 | the parent receives weight and remaining percentage of the finished step, unless it has both explicit percentages and substeps |
| Progress.Context.End | kirkstone/local/rauc/src/context.c:697-755 | ends the named step and aborts on a wrong name or count |
| ProgressRuns.PercentsRun | kirkstone/local/rauc/src/context.c:757-791 | explicit percentages telescope: after any of them the parent has received the share of the last one |
| ProgressRuns.LevelBound | kirkstone/local/rauc/src/context.c:567-612 | while steps are open the reported level is at most 100 |
| ProgressRuns.TreeRuns | kirkstone/local/rauc/src/context.c:567-791 | a well nested step below open ones gives its parent exactly its total, with reports within its share, rising if its explicit percentages rise |
| ProgressRuns.ForestRuns | kirkstone/local/rauc/src/context.c:567-791 | the same for any number of steps in a row |
| ProgressRuns.RootRuns | kirkstone/local/rauc/src/context.c:567-791 | a well nested root step starts and ends with an empty stack, reports values from 0 to 100, and ends with 100 |
| ProgressRuns.RootPercentAborts | kirkstone/local/rauc/src/context.c:757-791 | an explicit percentage on the root step aborts |
| SlotTree.ResolveParents | kirkstone/local/rauc/src/config_file.c:544-577 | succeeds exactly if all parents exist and no child has a bootname, and then links every child to its parent |
| SlotTree.RealParent | kirkstone/local/rauc/src/config_file.c:37-76 | finds the root above a slot exactly if it is at most 101 links away |
| SlotTree.FixSlot | kirkstone/local/rauc/src/config_file.c:37-76 | rewrites this slot's link only, or fails and leaves it |
| SlotTree.FixGrandparentLinks | kirkstone/local/rauc/src/config_file.c:37-76 | the pass over the slots in any order computes the specified rewrite |
| SlotTree.FixFlattens | kirkstone/local/rauc/src/config_file.c:37-76 | on success every parent is a root, every slot keeps its root, and roots stay roots, for any iteration order |
| SlotTree.CycleHasNoRoot | kirkstone/local/rauc/src/config_file.c:37-76 | a slot on a cycle of parents reaches no root |
| SlotTree.UnrootedIsRejected | kirkstone/local/rauc/src/config_file.c:37-76 | a slot without a root makes the pass fail in any order |
| SlotTree.CycleIsRejected | kirkstone/local/rauc/src/config_file.c:37-76 | every cycle of parents is rejected in any order |
| SlotTree.DepthLimit | kirkstone/local/rauc/src/config_file.c:37-76 | the pass succeeds in every order if and only if every slot is at most 101 links below its root |
| SlotTree.OrderSucceedsIff | kirkstone/local/rauc/src/config_file.c:37-76 | for one given order the pass succeeds if and only if each slot has at most 101 links up to its root, an ancestor that comes earlier in the order being one link below it |
| SlotTree.RootIsUnique | kirkstone/local/rauc/src/slot.c:175-186 | the root reached does not depend on how far one climbs |
| SlotTree.GetParentRoot | kirkstone/local/rauc/src/slot.c:175-186 | following the links ends at the root |
| BundleFormats.ParseBundleFormats | kirkstone/local/rauc/src/config_file.c:78-161 | fails exactly on unknown formats, on mixing signed and unsigned ones, or on an empty result; otherwise a format is set exactly if its last mention does not remove it, or if it is not mentioned, was set, and no unsigned one occurs |
| BundleFormats.TokenIff | kirkstone/local/rauc/src/config_file.c:78-161 | a token is one of the three formats, after + or - if it has a sign |
| BundleFormats.Take | kirkstone/local/rauc/src/config_file.c:78-161 | one more token: the first unsigned one starts from nothing |
| BundleFormats.AcceptedSnoc | kirkstone/local/rauc/src/config_file.c:78-161 | what one more token does to the formats accepted so far |
| TargetGroup.RemoveFastMeaning | kirkstone/local/rauc/src/slot.c:329-355 | removing a class from the collected ones removes only that class |
| TargetGroup.RootClassesMeaning | kirkstone/local/rauc/src/slot.c:329-355 | the root classes are those of the slots without parent, each once |
| TargetGroup.TargetMeaning | kirkstone/local/rauc/src/install.c:361-405 | a class is mapped if and only if one of its slots belongs to a chosen root; the mapped slot has this class and its root is the inactive root chosen for its root class |
| TargetGroup.GroupMeaning | kirkstone/local/rauc/src/install.c:387-400 | of several slots of a class the last one in iteration order is mapped |
| TargetGroup.OneRootPerClass | kirkstone/local/rauc/src/install.c:328-405 | mapped slots whose roots are of the same class have the same root |
| TargetGroup.BootedRootIsSpared | kirkstone/local/rauc/src/install.c:361-405 | if nothing is booted or a root slot is, no booted or active slot is mapped |
| TargetGroup.BootedChildIsSparedIff | kirkstone/local/rauc/src/install.c:361-405 | with a booted child the running system is spared if and only if the child's root is not chosen, or a later slot of its class hides it |
| TargetGroup.BootedChildIsWritten | kirkstone/local/rauc/src/install.c:361-405 | a root with one child, booted from the child: the booted slot is mapped |
| TargetGroup.FindBootedSlot | kirkstone/local/rauc/src/install.c:176-203 | the first slot in iteration order that the boot slot names |
| TargetGroup.DesignatedIsBooted | kirkstone/local/rauc/src/install.c:176-203 | a slot whose bootname, name or device (resolved, if it has a real path) is what the system was booted from, while that of no other slot is, is the booted one |
| TargetGroup.OtherIsOutside | kirkstone/local/rauc/src/install.c:205-241 | what is none of these for any slot is an error, except "/dev/nfs" and "_external_", for which nothing is booted |
| TargetGroup.DetermineSlotStates | kirkstone/local/rauc/src/install.c:151-259 | fails exactly if the boot slot is unknown; otherwise the booted slot, its children as active, and all others as inactive |
| TargetGroup.GetRootClasses | kirkstone/local/rauc/src/slot.c:329-355 | the loop collects the specified classes |
| TargetGroup.SelectInactiveSlotClassMember | kirkstone/local/rauc/src/install.c:328-346 | the first inactive slot of a class |
| TargetGroup.DetermineTargetInstallGroup | kirkstone/local/rauc/src/install.c:361-405 | the loops compute the specified mapping from classes to slots |
| TargetGroup.LinkSlots | kirkstone/local/rauc/src/config_file.c:544-583 | succeeds exactly if the parents can be resolved and flattened, and leaves the flattened links |
| TargetGroup.ChooseTargets | kirkstone/local/rauc/src/install.c:361-405 | from configuration to targets: success, states and mapping exactly as specified; unless a child is booted all targets are inactive and of the class they are mapped for |
| ArtifactNames.ParseFileIff | kirkstone/local/rauc/src/artifacts.c:246-282 | a file name parses as an artifact's name and digest if and only if it is made from them, also with '-' in the name |
| ArtifactNames.FileOfDigestIff | kirkstone/local/rauc/src/artifacts.c:246-282 | a file made for any digest parses as an artifact if and only if what follows the last dash of the digest is lower-case hexadecimal |
| ArtifactNames.EndsWithIff | kirkstone/local/rauc/src/artifacts.c:246-282 | a name ends with a suffix if and only if something in front of it makes the name |
| ArtifactNames.TmpNeverParses | kirkstone/local/rauc/src/artifacts.c:831-919 | a path that ends in ".tmp" is no artifact |
| ArtifactNames.ParseTargetIff | kirkstone/local/rauc/src/artifacts.c:165-232 | a link target parses back if and only if it is the target of that artifact seen from that directory |
| ArtifactNames.TargetLeadsToFile | kirkstone/local/rauc/src/artifacts.c:511-517 | followed from the directory it is in, component by component, the stored link text leads to the artifact's file in the repository |
| ArtifactNames.FileNameFormat | kirkstone/local/rauc/src/artifacts.c:246-282 | the file name is ".artifact-", the name, '-' and the digest; digests are non-empty texts of 0-9 and a-f |
| ArtifactRefs.ActivatedMeaning | kirkstone/local/rauc/src/artifacts.c:921-946 | after activation the artifact is active, and another one of its name exactly if it was listed twice |
| ArtifactRefs.ActivatedKeeps | kirkstone/local/rauc/src/artifacts.c:921-946 | activation keeps references unique and one digest for each name and parent |
| ArtifactRefs.DeactivatedKeeps | kirkstone/local/rauc/src/artifacts.c:948-960 | so does deactivation |
| ArtifactRefs.OpsKeepOnePerName | kirkstone/local/rauc/src/artifacts.c:921-960 | at most one digest of a name is active for each parent after any sequence of both |
| ArtifactDisk.GoodMeaning | kirkstone/local/rauc/src/artifacts.c:471-541 | in a good directory every public link that is not temporary resolves to the file of an artifact of its name that is complete (or is known to be spoiled; without such artifacts, complete) |
| ArtifactDisk.TargetReachesFile | kirkstone/local/rauc/src/artifacts.c:511-517 | the link text of an artifact resolves to its file, from the repository and from the directory of a parent |
| ArtifactDisk.LinkLeads | kirkstone/local/rauc/src/artifacts.c:471-541 | a link with that text leads to something usable if and only if the artifact is usable |
| ArtifactDisk.TidyServes | kirkstone/local/rauc/src/artifacts.c:471-541 | without temporary links, every public link resolves to a usable artifact |
| ArtifactDisk.LinkedIsComplete | kirkstone/local/rauc/src/artifacts.c:471-541 | an artifact that is linked is complete, or known to be spoiled |
| ArtifactDisk.TmpLinkKeepsGood | kirkstone/local/rauc/src/utils.c:773-781 | making the temporary link keeps the directory good |
| ArtifactDisk.TmpLinkServes | kirkstone/local/rauc/src/utils.c:773-781 | a directory without temporary links still has every public link lead to a usable artifact once the temporary link of a usable one is made |
| ArtifactDisk.RenameLinkKeepsGood | kirkstone/local/rauc/src/utils.c:783-793 | renaming it over the public link does, if the artifact is usable |
| ArtifactDisk.LinkKeepsGoodIff | kirkstone/local/rauc/src/utils.c:783-793 | linking an artifact keeps the directory good if and only if the artifact is usable |
| ArtifactDisk.UnlinkedSpoilsNothing | kirkstone/local/rauc/src/artifacts.c:471-541 | a directory in which nothing spoiled is linked is good without exceptions |
| ArtifactDisk.RemovalKeepsGood | kirkstone/local/rauc/src/artifacts.c:354-469 | removing anything does, unless it is a linked artifact |
| ArtifactDisk.SpoilingKeepsGood | kirkstone/local/rauc/src/artifacts.c:354-469 | so does removing a part of a tree |
| ArtifactDisk.TmpDataKeepsGood | kirkstone/local/rauc/src/artifacts.c:831-919 | writing under the temporary name does at every stage |
| ArtifactDisk.RenameDataKeepsGood | kirkstone/local/rauc/src/artifacts.c:896-906 | renaming complete data to its final name does |
| ArtifactState.LinksToAre | kirkstone/local/rauc/src/artifacts.c:165-232 | an artifact has at most two links in a parent's directory, the public one and one left over |
| ArtifactState.ReadIsBacked | kirkstone/local/rauc/src/artifacts.c:234-323 | after reading, every reference leads to a usable artifact or its name is blocked by a temporary link, and every linked artifact is referenced |
| ArtifactState.CommitThenRead | kirkstone/local/rauc/src/artifacts.c:471-553 | commit followed by prepare restores the same artifacts and the same references, plus one for a link left over by a crash |
| ArtifactState.PruneIsExact | kirkstone/local/rauc/src/artifacts.c:425-466 | pruning removes an artifact if and only if nobody refers to it and nobody has it open |
| ArtifactState.LeftOverAfterPrune | kirkstone/local/rauc/src/artifacts.c:425-466 | pruning keeps a left-over link, and its artifact if and only if somebody refers to it or has it open |
| ArtifactState.IncompleteAfterPrune | kirkstone/local/rauc/src/artifacts.c:425-466 | an artifact is there and incomplete after pruning if and only if it was incomplete before and is held open |
| ArtifactState.PruneKeepsState | kirkstone/local/rauc/src/artifacts.c:354-469 | pruning keeps disk and table in step |
| ArtifactState.PruneRemovesTmp | kirkstone/local/rauc/src/artifacts.c:354-469 | no unfinished download survives pruning |
| ArtifactState.SyncedIsCovered | kirkstone/local/rauc/src/artifacts.c:471-553 | once the links agree with the table, every linked artifact is referenced |
| Artifacts.ArtifactRepo.constructor | kirkstone/local/rauc/src/artifacts.c:555-575 | the repository starts in the given good state, which is all of its history |
| Artifacts.ArtifactRepo.ReadFiles | kirkstone/local/rauc/src/artifacts.c:246-282 | the table knows exactly the artifacts that are files, without references |
| Artifacts.ArtifactRepo.ReadLinks | kirkstone/local/rauc/src/artifacts.c:165-232 | one reference for every link in the parent's directory that leads to a known artifact |
| Artifacts.ArtifactRepo.Prepare | kirkstone/local/rauc/src/artifacts.c:234-323 | the table is what the directory says |
| Artifacts.ArtifactRepo.UpdateSymlink | kirkstone/local/rauc/src/utils.c:758-796 | success means the link leads to the artifact, the directory went through exactly the two states of the code, and nothing else changed; a temporary link left behind blocks every change; it fails only if something outside failed, a temporary link was there at first, or a file has the name of a link |
| Artifacts.ArtifactRepo.ReplaceLink | kirkstone/local/rauc/src/utils.c:773-795 | every state in between is good, and without temporary links at first every public link leads to a usable artifact |
| Artifacts.ArtifactRepo.RenameLink | kirkstone/local/rauc/src/utils.c:783-795 | the rename replaces both names at once; on failure the temporary link goes or stays |
| Artifacts.ArtifactRepo.CommitName | kirkstone/local/rauc/src/artifacts.c:489-539 | the link of one name agrees with the table afterwards, nothing else changes |
| Artifacts.ArtifactRepo.CommitNext | kirkstone/local/rauc/src/artifacts.c:489-539 | one more name agrees with the table, and those before still do |
| Artifacts.ArtifactRepo.Commit | kirkstone/local/rauc/src/artifacts.c:471-553 | on success the links of all parents and names agree with the table; every state in between is good; it fails only if something outside failed, a temporary link was there at first, or a file has the name of a link |
| Artifacts.ArtifactRepo.RemoveTree | kirkstone/local/rauc/src/utils.c:207-236 | removes one entry, a tree possibly in part |
| Artifacts.ArtifactRepo.PruneArtifact | kirkstone/local/rauc/src/artifacts.c:434-462 | removes file and table entry exactly if unreferenced and not open |
| Artifacts.ArtifactRepo.PruneArtifacts | kirkstone/local/rauc/src/artifacts.c:425-466 | the loop removes exactly the unused artifacts |
| Artifacts.ArtifactRepo.Prune | kirkstone/local/rauc/src/artifacts.c:354-469 | removes exactly what does not belong in the repository and the unused artifacts |
| Artifacts.ArtifactRepo.InstallArtifact | kirkstone/local/rauc/src/artifacts.c:831-919 | on success the complete artifact is there under its final name; at no crash point is it there incomplete; it fails only if something outside failed |
| ArtifactInstall.RemoveOldArtifacts | kirkstone/local/rauc/src/install.c:1304-1343 | drops the references of all names that the manifest does not have, and commits |
| ArtifactInstall.FindOrInstall | kirkstone/local/rauc/src/install.c:1361-1403 | adds and writes the artifact unless it is known |
| ArtifactInstall.ActivateAndCommit | kirkstone/local/rauc/src/install.c:1405-1412 | the artifact becomes the active one of its name, on disk too |
| ArtifactInstall.HandlePlan | kirkstone/local/rauc/src/install.c:1345-1418 | one plan: the table is the specified one and the links agree with it |
| ArtifactInstall.PlannedMeaning | kirkstone/local/rauc/src/install.c:1304-1418 | a plan activates its artifact, keeps what other names of the manifest have active, and leaves nothing active for names the manifest lacks |
| ArtifactInstall.CountAfterPlans | kirkstone/local/rauc/src/install.c:1304-1418 | what all plans together do to the references of an artifact: none is left if the manifest lacks its name; otherwise it loses one for each plan of another artifact of its name, and has at least one if it is the last planned |
| ArtifactInstall.UniqueAfterPlans | kirkstone/local/rauc/src/install.c:1304-1418 | after all plans a planned artifact is active if and only if it is the last planned of its name, and no name has two |
| ArtifactInstall.HandlePlans | kirkstone/local/rauc/src/install.c:1457-1473 | the loop makes of the table what all plans together make of it; links and table agree, no other artifact file is lost or changed, and new ones are complete; it fails only if something outside failed, or there were temporary links at first |
| ArtifactInstall.InstallRun | kirkstone/local/rauc/src/install.c:1454-1479 | no state from the reading to the last pruning has a public link to missing data, temporary links excepted only if there were some at first; on success, without temporary links at first, a planned artifact is linked if and only if it is the last planned of its name, and then incomplete if and only if it was incomplete before and is held open; the artifact of a left-over link is kept if and only if it is the last planned, or has more references than there are plans for others of its name, or is held open |
| ArtifactInstall.OneRun | kirkstone/local/rauc/src/install.c:1454-1479 | from a good directory, whatever is linked incomplete is a spoiled planned artifact, in every state; a left-over link stays in every state, and so does its artifact if the run cannot remove it, while a successful run removes all others; the final directory of a successful run without temporary links at first is good if and only if no spoiled artifact is the last planned of its name |
| ArtifactInstall.RunIn | kirkstone/local/rauc/src/install.c:1454-1479 | the same from a directory in which some artifacts are known to be spoiled |
| ArtifactInstall.PinsMakeLeftOversStay | kirkstone/local/rauc/src/artifacts.c:425-466 | if no state loses what is pinned, the left-over links stay, and the artifacts that the run cannot remove |
| ArtifactInstall.LeftOverInRun | kirkstone/local/rauc/src/install.c:1454-1479 | the exact condition for a left-over link to keep its artifact, from the first pruning to the last |
| ArtifactInstall.PlanIsGoodIff | kirkstone/local/rauc/src/artifacts.c:815-829 | one plan keeps the directory good if and only if its artifact is not incomplete and held open |
| ArtifactInstall.Lifetime | kirkstone/local/rauc/src/install.c:1454-1479 | over any number of runs, each starting with some state of the one before, nothing incomplete is ever linked except the planned artifacts that some run found incomplete and held open (for files, nothing at all), and in every state of every run the left-over links and the artifacts it cannot remove are there |
| ArtifactInstall.FilesAreNotSpoiled | kirkstone/local/rauc/src/artifacts.c:686-728 | in a repository of files no artifact is incomplete, whatever is open |
| ArtifactInstall.IncompleteTreeIsReused | kirkstone/local/rauc/src/artifacts.c:815-829 | for any artifact: a partly removed tree that is open is kept by the pruning, found, activated, and linked, so the condition is needed |
| ArtifactInstall.LinkIsCutOff | kirkstone/local/rauc/src/utils.c:773-795 | a run that ends with a dangling link, first part: from a good directory, a crash between making and renaming the link leaves a good one, with the link leading to its artifact |
| ArtifactInstall.NothingIsPruned | kirkstone/local/rauc/src/artifacts.c:234-323 | the run, second part: the next installation reads that directory, and its first pruning takes nothing |
| ArtifactInstall.NoLinkIsChanged | kirkstone/local/rauc/src/install.c:1304-1343 | the run, third part: its manifest lacks the artifact, which loses its reference, and no link needs a change |
| ArtifactInstall.LeftOverDangles | kirkstone/local/rauc/src/artifacts.c:425-466 | the run, fourth part: the last pruning takes the artifact and leaves the temporary link, which leads nowhere |
| ArtifactInstall.ForeignDigestDanglesIff | kirkstone/local/rauc/src/artifacts.c:246-282 | after reading, a linked artifact survives the next pruning if and only if what follows the last dash of its digest is lower-case hexadecimal; otherwise it goes as junk and its link dangles |
| KeyFiles.StringRoundTrip | kirkstone/local/rauc/src/utils.c:389-413 | reading an escaped string gives it back |
| KeyFiles.ListRoundTrip | kirkstone/local/rauc/src/manifest.c:105-116 | so for lists of strings, separators inside included |
| KeyFiles.NumberRoundTrip | kirkstone/local/rauc/src/manifest.c:62-72 | so for unsigned 64-bit numbers |
| KeyFiles.NumberIff | kirkstone/local/rauc/src/manifest.c:62-72 | a value is a number if and only if what follows its sign is made of digits, at least one |
| Text.DigitCharIs | kirkstone/local/rauc/src/bootchooser.c:851-856 | numbers are printed with the digits 0 to 9 and a to f |
| Text.PlaceValue | kirkstone/local/rauc/src/bootchooser.c:851-856 | printing takes quotient and remainder of the base |
| Text.DecimalIsRead | kirkstone/local/rauc/src/bootchooser.c:98-130 | a text of decimal digits, with a sign or without, reads as its place value, saturating at 64 bits |
| Text.HexIsRead | kirkstone/local/rauc/src/bootchooser.c:753-793 | a text of hexadecimal digits reads as its place value, after 0x in any base that admits it |
| Text.OctalOrDecimalIsRead | kirkstone/local/rauc/src/bootchooser.c:484-532 | without a given base a leading 0 means octal, otherwise the text is decimal |
| Text.SpaceIsSkipped | kirkstone/local/rauc/src/bootchooser.c:98-130 | white space in front is skipped |
| Text.NothingIsRead | kirkstone/local/rauc/src/bootchooser.c:484-532 | a text that starts with something else reads as 0 |
| ManifestRoundTrip.UpdateRoundTrip | kirkstone/local/rauc/src/manifest.c:217-230 | the printed update group reads back |
| ManifestFormat.UpdateFormat | kirkstone/local/rauc/src/manifest.c:769-779 | the update group has exactly these four keys, each with its value if it is set |
| ManifestFormat.UpdateAcceptedIff | kirkstone/local/rauc/src/manifest.c:217-230 | it is accepted if and only if there is a compatible, and nothing but these four as readable texts |
| ManifestRoundTrip.BundleRoundTrip | kirkstone/local/rauc/src/manifest.c:232-269 | so does the bundle group of every format, with its verity fields |
| ManifestFormat.BundleFormat | kirkstone/local/rauc/src/manifest.c:781-804 | the format is printed unless it is plain by default; the verity fields follow exactly for the other two |
| ManifestFormat.VerityFormat | kirkstone/local/rauc/src/manifest.c:781-804 | hash, salt and a non-zero size, and the key exactly for crypt |
| ManifestFormat.BundleAcceptedIff | kirkstone/local/rauc/src/manifest.c:232-269 | exactly the known formats are accepted, each with its own keys and no others |
| ManifestRoundTrip.HandlerRoundTrip | kirkstone/local/rauc/src/manifest.c:271-283 | so does the handler group |
| ManifestFormat.HandlerFormat | kirkstone/local/rauc/src/manifest.c:806-810 | file name and arguments, each if it is set |
| ManifestFormat.HandlerAcceptedIff | kirkstone/local/rauc/src/manifest.c:271-283 | arguments are accepted only with a file name, and nothing else |
| ManifestRoundTrip.HooksRoundTrip | kirkstone/local/rauc/src/manifest.c:285-303 | so does the hooks group |
| ManifestFormat.HooksFormat | kirkstone/local/rauc/src/manifest.c:812-823 | file name, and install-check if it is set |
| ManifestFormat.HooksAcceptedIff | kirkstone/local/rauc/src/manifest.c:285-303 | no other hook than install-check is accepted |
| ManifestRoundTrip.HookNamesRoundTrip | kirkstone/local/rauc/src/manifest.c:74-88 | the three hook names of an image read back, in any combination |
| ManifestFormat.HookNamesAcceptedIff | kirkstone/local/rauc/src/manifest.c:74-88 | names of hooks are accepted if and only if each is one of the three, and then exactly the named ones are set |
| ManifestRoundTrip.ImageNameRoundTrip | kirkstone/local/rauc/src/manifest.c:34-55 | the name of an image group tells class, artifact and variant, dots in the variant included |
| ManifestRoundTrip.ImageRoundTrip | kirkstone/local/rauc/src/manifest.c:18-129 | every image group reads back |
| ManifestFormat.ImageFormat | kirkstone/local/rauc/src/manifest.c:825-881 | the digest, a size that is not negative, and the keys of the file, each with its value |
| ManifestFormat.FileFormat | kirkstone/local/rauc/src/manifest.c:825-881 | the hooks that are set, if any, the file name, and the lists |
| ManifestFormat.ListsFormat | kirkstone/local/rauc/src/manifest.c:825-881 | the three lists, each if it is set; an empty one of converted files is not printed |
| ManifestFormat.ImageGroupFormat | kirkstone/local/rauc/src/manifest.c:825-881 | the group of an image is named after its class, artifact and variant |
| Manifest.SignedMeaning | kirkstone/local/rauc/src/manifest.c:62-72 | a size of 2^63 or more is read as the negative number that is the same modulo 2^64 |
| ManifestFormat.ImageAcceptedIff | kirkstone/local/rauc/src/manifest.c:18-129 | an image is accepted if and only if it has known keys only, texts and size can be read, its hooks are known, and it has a file unless the install hook does without |
| ManifestFile.MetaRoundTrip | kirkstone/local/rauc/src/manifest.c:131-188 | every metadata group reads back |
| ManifestFormat.MetaAcceptedIff | kirkstone/local/rauc/src/manifest.c:131-188 | a metadata group is accepted if and only if its tag and keys are made of letters, digits, _ and -, and no value is empty; it then has exactly these keys and values |
| ManifestFile.OrderOfPrepared | kirkstone/local/rauc/src/manifest.c:759-898 | after the fixed groups come the images in their order, then the metadata in hash order |
| ManifestFile.ManifestRoundTrips | kirkstone/local/rauc/src/manifest.c:200-337 | reading what was printed of a well-formed manifest gives the manifest, in whatever order the metadata was printed |
| ManifestPrint.PrintUpdate | kirkstone/local/rauc/src/manifest.c:769-779 | adds exactly the update group's keys |
| ManifestPrint.PrintBundle | kirkstone/local/rauc/src/manifest.c:781-804 | so for the bundle group |
| ManifestPrint.PrintHandler | kirkstone/local/rauc/src/manifest.c:806-810 | so for the handler group |
| ManifestPrint.PrintHooks | kirkstone/local/rauc/src/manifest.c:812-823 | so for the hooks group |
| ManifestPrint.PrintImage | kirkstone/local/rauc/src/manifest.c:825-881 | so for an image group |
| ManifestPrint.PrintMeta | kirkstone/local/rauc/src/manifest.c:883-895 | so for a metadata group |
| ManifestPrint.PrepareManifest | kirkstone/local/rauc/src/manifest.c:759-898 | the printing loops yield the specified file for some order of the metadata |
| ManifestParse.ReadUpdate | kirkstone/local/rauc/src/manifest.c:217-230 | consumes the group and returns what it determines, fails on keys left over |
| ManifestParse.ReadBundle | kirkstone/local/rauc/src/manifest.c:232-269 | so for the bundle group |
| ManifestParse.ReadHandler | kirkstone/local/rauc/src/manifest.c:271-283 | so for the handler group |
| ManifestParse.ReadHooks | kirkstone/local/rauc/src/manifest.c:285-303 | so for the hooks group |
| ManifestParse.ReadHookNames | kirkstone/local/rauc/src/manifest.c:74-88 | fails exactly on an unknown hook name |
| ManifestParse.ReadImage | kirkstone/local/rauc/src/manifest.c:18-129 | consumes an image group and returns the image it determines, fails on keys left over |
| ManifestParse.ReadMeta | kirkstone/local/rauc/src/manifest.c:131-188 | consumes a metadata group likewise; keys must be usable in the environment |
| ManifestParse.ParseManifest | kirkstone/local/rauc/src/manifest.c:200-337 | consuming the file key by key returns the manifest the file determines, or fails |
| ManifestParse.PrintAndParse | kirkstone/local/rauc/src/manifest.c:759-898 | printing, then parsing, any well-formed manifest returns it |
| Mbr.GetChs | kirkstone/local/rauc/src/mbr.c:204-221 | cylinder, head and sector bytes of a sector number |
| Mbr.ChsStandsFor | kirkstone/local/rauc/src/mbr.c:204-221 | the stored bytes decode to the sector number if and only if the cylinder is below 1024 and the sector number within its track at most 63 |
| Mbr.ClearIsDisjoint | kirkstone/local/rauc/src/mbr.c:148-193 | without 64-bit wrap-around the overlap test is exactly disjointness |
| Mbr.ValidRegionIff | kirkstone/local/rauc/src/mbr.c:81-125 | a region is valid if and only if it starts at 512 or later, is not empty, is aligned in two halves, and start plus size, in 64 bits, lies before the end of the device |
| Mbr.DefaultGeometry | kirkstone/local/rauc/src/mbr.c:60-79 | 255 heads and 63 sectors, unless the device tells |
| Mbr.InactiveIsSafe | kirkstone/local/rauc/src/mbr.c:262-333 | a half is chosen exactly under the stated conditions; it is aligned, inside region and device, and disjoint from the half that boots and from all other partitions |
| Mbr.BootPartitionIsSpared | kirkstone/local/rauc/src/mbr.c:262-333 | it is disjoint from the recorded boot partition if and only if that one is the upper half or no longer than a half |
| Mbr.InsideIffNoWrap | kirkstone/local/rauc/src/mbr.c:81-125 | the chosen half ends inside the device if and only if start plus size does not wrap |
| Mbr.WrapIsAccepted | kirkstone/local/rauc/src/mbr.c:81-125 | such a region is accepted, and the stored sector number is not the chosen one |
| Mbr.SwitchMovesBoot | kirkstone/local/rauc/src/mbr.c:262-394 | a switch moves the boot entry to the other half, keeps type and flag, and touches nothing else |
| Mbr.SwitchStoresPositions | kirkstone/local/rauc/src/mbr.c:223-260 | first and last position of the new entry decode to its sector numbers, if the geometry has at most 63 sectors per track |
| Mbr.SwitchFits | kirkstone/local/rauc/src/mbr.c:223-260 | the 32-bit fields never truncate |
| Mbr.SwitchesAlternate | kirkstone/local/rauc/src/mbr.c:262-394 | over any number of switches the boot entry alternates between the halves, so two restore its start, and all else stays |
| Mbr.BlockDevice.ValidateRegion | kirkstone/local/rauc/src/mbr.c:81-125 | accepts exactly the valid regions |
| Mbr.BlockDevice.IsRegionFree | kirkstone/local/rauc/src/mbr.c:148-193 | the loop over the other partitions finds any overlap |
| Mbr.BlockDevice.GetInactivePartition | kirkstone/local/rauc/src/mbr.c:262-333 | the half that does not boot, or an error |
| Mbr.BlockDevice.GetRawPartitionEntry | kirkstone/local/rauc/src/mbr.c:223-260 | the entry with start, size and both positions, or an error |
| Mbr.BlockDevice.SetBootPartition | kirkstone/local/rauc/src/mbr.c:335-394 | replaces the boot entry, or changes nothing |
| Mbr.BlockDevice.SwitchBootPartition | kirkstone/local/rauc/src/mbr.c:262-394 | one update: returns the half that was written and boots it |
| Crypt.BigRoundTrip | kirkstone/local/rauc/src/bundle.c:580-611 | a big-endian number reads back |
| Crypt.BigAt | kirkstone/local/rauc/src/bundle.c:580-611 | each byte is a digit to base 256, the most significant first |
| Crypt.CbcRoundTrip | kirkstone/local/rauc/src/crypt.c:44-112 | CBC decryption undoes CBC encryption for any sound block cipher (section 6.2 of NIST SP 800-38A) |
| Crypt.XorBits | kirkstone/local/rauc/src/crypt.c:44-112 | a bit of the exclusive or is set exactly if the two bits differ |
| Crypt.XorBytesAt | kirkstone/local/rauc/src/crypt.c:44-112 | it is taken byte by byte |
| Crypt.CbcChains | kirkstone/local/rauc/src/crypt.c:44-112 | each encrypted block is the cipher of its block combined with the encrypted block before it, or the vector |
| Crypt.IvsDiffer | kirkstone/local/rauc/src/crypt.c:18-26 | two sectors share an initialisation vector if and only if their numbers differ by a multiple of 2^52 |
| Crypt.IvMeaning | kirkstone/local/rauc/src/crypt.c:18-26 | below 2^52 the vector of sector n is the number 8 n, counting 512 bytes each, in eight bytes, the least significant first, and eight zero bytes; above, modulo 2^52 |
| Crypt.SectorCipherRoundTrip | kirkstone/local/rauc/src/crypt.c:44-112 | decrypting a sector with its vector undoes encrypting it |
| Crypt.SectorsRoundTrip | kirkstone/local/rauc/src/crypt.c:44-112 | so for any number of sectors |
| Crypt.SectorAt | kirkstone/local/rauc/src/crypt.c:44-112 | each sector stays where it is and goes through with its own number |
| Crypt.EncryptedSector | kirkstone/local/rauc/src/crypt.c:44-112 | sector i becomes its chained encryption, or decryption, with the vector of i |
| Crypt.EncryptOrDecrypt | kirkstone/local/rauc/src/crypt.c:44-112 | the loop processes all whole sectors within the limit, and succeeds exactly if it does not meet a partial sector before it stops |
| Bundle.TreeIsEmptyIff | kirkstone/local/rauc/src/verity_hash.c:132-171 | the hash tree is empty exactly for at most one block |
| Bundle.HashLevels | kirkstone/local/rauc/src/verity_hash.c:132-171 | the level loop, with its shifts, yields the sum of all levels of the tree |
| Bundle.ShiftRoundsUp | kirkstone/local/rauc/src/verity_hash.c:132-171 | rounding up once at the end is rounding up at every level |
| Bundle.OpenIffFramed | kirkstone/local/rauc/src/bundle.c:1953-2072 | opening finds size and signature if and only if the file is payload, signature of a legal size, and its length |
| Bundle.OpenRecovers | kirkstone/local/rauc/src/bundle.c:736-792 | opening a framed bundle recovers size and signature, or refuses an empty or too large one |
| Bundle.Resign | kirkstone/local/rauc/src/bundle.c:1278-1399 | truncating and signing again keeps the payload and yields the new signature |
| Bundle.DecryptPrefix | kirkstone/local/rauc/src/bundle.c:961-1014 | bounded decryption returns the payload for any tail, and succeeds if and only if the tail is empty or at least one sector |
| Bundle.CryptBundleDecrypts | kirkstone/local/rauc/src/bundle.c:961-1014 | the hash tree, at least one block long, makes it succeed |
| Bundle.BundleFile.EncryptPayload | kirkstone/local/rauc/src/bundle.c:899-959 | encrypts whole sectors in place, fails exactly on a partial one |
| Bundle.BundleFile.CreateVerity | kirkstone/local/rauc/src/bundle.c:649-734 | appends a tree of the right non-zero multiple of 4096 bytes, fails exactly on partial or too short payloads |
| Bundle.BundleFile.AppendSignature | kirkstone/local/rauc/src/bundle.c:736-792 | the file becomes the frame of its content and the signature |
| Bundle.BundleFile.Truncated | kirkstone/local/rauc/src/bundle.c:1278-1335 | a copy of the front part |
| Bundle.RaucBundle.OpenLocal | kirkstone/local/rauc/src/bundle.c:1953-2072 | succeeds exactly on framed files, with their size and signature |
| Bundle.RaucBundle.DecryptPayload | kirkstone/local/rauc/src/bundle.c:961-1014 | the stream becomes the decrypted front up to the tree |
| Bundle.BuildAndRead | kirkstone/local/rauc/src/bundle.c:899-1014 | encrypting, hashing, signing, then opening and decrypting succeeds exactly for whole sectors, more than one, and a legal signature, and returns the payload |
| EventLog.RotationDropsOldest | kirkstone/local/rauc/src/event_log.c:242-301 | a rotation moves every file up by one and drops nothing but the oldest file, and that one only if its number is taken over |
| EventLog.LoggedMeaning | kirkstone/local/rauc/src/event_log.c:303-358 | an entry that fits is appended and nothing else happens; before any other the current file becomes number 1, the entry starts a new one, and of the log at most the oldest file is dropped |
| EventLog.MoveKeepsEnd | kirkstone/local/rauc/src/event_log.c:262-281 | one rename keeps the files a suffix of the log |
| EventLog.RetireKeepsEnd | kirkstone/local/rauc/src/event_log.c:283-289 | so does retiring the current file |
| EventLog.AppendKeepsEnd | kirkstone/local/rauc/src/event_log.c:350-357 | so does appending |
| EventLog.EventLogger.FewFiles | kirkstone/local/rauc/src/event_log.c:242-301 | there are at most max(maxfiles, 2) files |
| EventLog.EventLogger.Setup | kirkstone/local/rauc/src/event_log.c:408-438 | opens the current file, or the logger is broken |
| EventLog.EventLogger.RotateOne | kirkstone/local/rauc/src/event_log.c:266-281 | one rename, skipped for a missing file |
| EventLog.EventLogger.RotateLogfiles | kirkstone/local/rauc/src/event_log.c:242-301 | nothing happens below the limit; otherwise success leaves exactly the rotated files and an empty current one |
| EventLog.EventLogger.StartFile | kirkstone/local/rauc/src/event_log.c:283-300 | retires the current file and starts an empty one |
| EventLog.EventLogger.Write | kirkstone/local/rauc/src/event_log.c:303-358 | the entry is appended after rotating if needed, exactly as specified, or the logger is broken; the files always end the log, and a rotated current file fits or holds a single entry; it breaks only if something outside failed |
| EventLog.EventLogger.WriteNext | kirkstone/local/rauc/src/event_log.c:303-358 | one more entry keeps what holds of the sequence |
| EventLog.EventLogger.WriteAll | kirkstone/local/rauc/src/event_log.c:303-358 | so over any sequence of entries; it breaks only if something outside failed |

## Left out

- Install.Installer.Lifetime: only the central status file is modelled; with per-slot status files the status lives in the slot that is overwritten. Marking a slot good or active by hand that cannot boot is left out: nothing vouches for it.
- Install.Installer.UpdateSlot: handlers and slot hooks are any sequence of writes that ends with the image on success; their own work is not modelled.
- Install.Installer.HandlePlans: artifact plans only succeed or fail here; what they do to the repository is in `ArtifactInstall`.
- Install.Installer.SaveStatus: the status file is replaced in one step; timestamps, counts and bundle texts in it are left out.
- Uboot.Backend.SetState: an empty value stays a stored value; that `fw_setenv` deletes a variable set to an empty text is a property of the tool and not modelled. It makes a difference exactly if no other slot is listed (`StaysListedIff`).
- HashIndex.BuildLookup: `qsort_r` is an insertion sort here; the sorted permutation is unique, so nothing else can come out.
- HashIndex.RaucHashIndex.constructor: from 2^27 chunks on, hashing a file is as meant instead of as coded, because the 32-bit sizes and offsets of the code wrap around (`HashesFitIff`); statistics, mapped files and reading errors are left out.
- ArtifactInstall.OneRun: planned digests are lower-case hexadecimal, as for `InstallRun`.
- ArtifactInstall.Lifetime: planned digests are lower-case hexadecimal, as for `InstallRun`.
- ArtifactInstall.InstallRun: only repositories without parent slots, as the source asserts there; planned digests are lower-case hexadecimal, which the source does not check (what happens otherwise is `ForeignDigestDanglesIff`).
- Artifacts.ArtifactRepo.Prune: which artifacts are open is given; failing to open a directory or to look for open files is left out.
- ArtifactNames.ParseFileIff: file names with line breaks, which the regular expression treats specially, are left out.
- ArtifactNames.ParseTargetIff: so are link targets with line breaks.
- ArtifactDisk.GoodMeaning: names of artifacts do not start with a dot, contain no slash, and do not end in ".tmp-link".
- TargetGroup.ChooseTargets: a configuration without any slot table is left out.
- Progress.Context.SetPercentage: percentages are exact reals instead of single and double precision floats, so rounding is left out.
- Crypt.EncryptOrDecrypt: reading and writing errors are left out; the cipher is any pair of functions of which one undoes the other.
- Bundle.BundleFile.CreateVerity: only the size of the hash tree is modelled, not its contents, salt or root hash; files are shorter than 2^64 bytes.
- Bundle.RaucBundle.OpenLocal: signature verification, trust, and the contents of the CMS data are left out, and so are streaming bundles.
- ManifestFile.ManifestRoundTrips: values are texts with their list separators escaped; the escapes of GLib for spaces, tabs, line breaks and backslashes at the level of lines are left out.
- Mbr.BlockDevice.GetInactivePartition: sector sizes are from 512 to 65536 bytes and the number of sectors is as the device reports it; writing errors are left out.
- EventLog.EventLogger.Write: how an entry is formatted is left out; it is any text.
- InstallPlans.MakePlans: whether an update handler supports image and slot, and whether the repositories could be read and pruned, are given; the checks before an installation are left out.
- The custom and noop bootloader backends have no state to speak of.
- gpt.c repeats the MBR switch behind a library; emmc.c is a single register write.
- Command line, D-Bus, JSON output, error texts, log messages and memory management.
