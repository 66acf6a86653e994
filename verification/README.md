# Hybrid Mount, modelled and proved in Dafny

Hybrid Mount decides, path by path, which backend serves each file of a module,
then changes mounts and kernel rules under an ownership ledger that must survive
a crash at any step. This project models its planner, its executors and its
ownership protocol, and proves what each of them keeps. `dafny verify
dfyconfig.toml` checks everything.

| files | component |
|---|---|
| `Wrappers`, `Strings` | options, results and the order of strings, shared by the rest |
| `Rules`, `Device`, `RuleTransaction` | the rule reconciler over a fallible kernel (`src/runtime/rules.rs`) |
| `HotTransaction` | write-ahead journal, isolation before publication, recovery (`src/runtime/transaction.rs`) |
| `Lifecycle`, `SoftReboot` | boot and hot operations, the cleanup before a soft reboot (`src/runtime/boot.rs`, `hot.rs`, `ledger.rs`) |
| `Runs` | every sequence of them with crashes, and what a boot followed by a cleanup leaves (`src/runtime/boot.rs`) |
| `MountCleanup` | capture, preflight and resumable cleanup of owned mounts (`src/runtime/mounts.rs`) |
| `FileTrees`, `MountTrees`, `MagicMount` | directory trees, the shared mount tree, the magic mount executor (`src/mount_tree.rs`, `src/magic_mount/exec.rs`) |
| `Partitions`, `ModulePlan`, `PlanConflicts`, `Planner` | target mapping, module plans, conflict walkers, the whole planner (`src/partitions.rs`, `src/plan/mod.rs`) |
| `OverlayReroute` | overlay targets that do not exist (`src/pipeline.rs`) |
| `OverlayLayers`, `OverlayChildren`, `MountOptions` | layer collapsing, nested mounts, the option string (`src/overlayfs/overlayfs.rs`) |
| `Ext4Sizing` | image sizing in saturating arithmetic (`src/storage/ext4.rs`) |

## How the environment is modelled

* **Kernel rules.** `Devices.Device` holds the live rules as a map from (virtual
  path, uid) to payload, the isolated UIDs, the mounts and the stored ledger. A
  batch applies any prefix and reports anything. A listing shows every live rule
  with arbitrary derived bits, and any derived parents beside them. The field
  `history` keeps every state, so "in every state of every run" is a statement
  about it, and a crash is a return to any of those states.
* **When calls work.** The fields `forwardWorks` and `recoveryWorks` of a device
  say whether the calls of the forward and of the recovery stage take full effect,
  `recoveryReports` whether the latter also say so, and `plainListings` whether a
  listing shows live rules only. The field `refusals` counts the failures that changing
  calls have reported; what ends in success has none, even where its effect was reached.
  No safety statement needs any of them. They appear
  in statements of the form "if these calls work, the run succeeds (or rolls back
  cleanly)". The other classes have one constant `works` of the same kind.
* **Baselines.** A run is compared with the live state at its start. Boot plans may
  name keys that are live there; those keys are *contested*, and every invariant says
  that a contested rule of the baseline may be gone. A boot may leave mounts at targets
  it does not report; those are *strays*, no ledger records them, and every invariant
  says that they may stay.
* **Namespaces.** `MagicMount.Namespace` shows a tree through a stack of mounts
  and has a private staging tree; every call may fail at any time. A link in the tree
  says what it leads to. `MountCleanup.MountTable` is a sequence of mounts, the newest on a path being the
  visible one; a detach may take anything strictly below along, do nothing, and
  report anything.
* **Overlay layers** are trees with whiteouts, opaque directories and links, which say
  what they lead to; the reference is a lookup through the stack of layers, path by path.
* **Paths** are sequences of components, except where the source compares strings
  (rule paths, sorting, the option string).

## Findings

Statements one might expect and the code does not keep, each with the exact condition
under which it does; the last one shows why the code is as it is.

* `Runs.BackToBaseline`: the comment at `src/runtime/boot.rs:263-270` says that nothing
  later claims a rule which this boot did not place. The commit claims every planned
  rule that is live, whoever put it there, and cleanup deletes it. Boot and cleanup lead
  back to the start exactly when every live rule on a planned key was left alone and
  differs from the planned one. Where all planned rules were published, or withdrawn
  again after a refused batch (`src/vfs/exec.rs:106`), that means no planned key was
  taken; where none was tried, as in a boot that its guard stops
  (`src/pipeline.rs:1812`), it means no live rule was identical to a planned one.
  `Runs.TwinIsDeleted` is an instance of the latter.
* `Rules.DeleteBatchRespectsTopology`: the put order never has a child before its parent.
  The delete order has a parent before its child exactly for `/` and its direct children,
  which have the same slash count (`Rules.RootIsNotOrderedAfterItsChild`). The planner
  never makes a rule for `/`: the path of the root node is empty
  (`src/vfs/rule.rs:40-58`).
* `MagicMount.Namespace.Execute`: one plain directory over a stock file makes the whole
  run fail, since its entries are to be read. With working calls a run succeeds exactly
  if there is none (`MagicMount.Mountable`); `MagicMount.DirectoryOverFile` is a tree
  that has one.
* `MagicMount.ReplaceIsShallow`: a magic `.replace` hides the stock entries of its own
  directory only. A plain contributed directory inside it shows its stock entries
  again (`MagicMount.StockBelowReplaceSurvives`); `MagicMount.ReplacedButVisible` is a
  replaced directory with a stock file in view. All stock is hidden exactly under a
  condition on the two trees.
* `ModulePlan.LayerShowsAtTarget`: a layer for the bare `system` directory, which an
  invalid remove marker can produce, also swallows entries of `system/P`, whose
  targets lie elsewhere unless P is mounted below the system root
  (`Planner.BareSystemSwallows`). Without a replacement there, only a module that keeps
  some entry which is not an overlay one gets such a layer (`Planner.BareLayerNeedsOther`).
* `OverlayChildren.Preparer.MountOverlay`: an overlay fails where a module hides the place
  of a mount below it, by a file on the way to a directory mount, say
  (`OverlayChildren.FileOverDirectoryLosesPlace`). The planner does not stop that: besides
  plain directories it keeps regular files above a mount point, and nothing else
  (`Planner.OnlyPlainEntriesCover`).
* `Planner.LayersSurvive`: the overlay table keeps one directory per module and
  target, so a module that spells one partition in two ways loses a layer
  (`Planner.TwoSpellingsLoseALayer`).
* `MountTrees.StructuralAligned`: the module directory noted for a node on the way is the
  one that stands for it exactly when the target has no more components than the module
  path, or at the target itself; `vendor/etc` on /system/vendor/etc notes `vendor` for
  /system (`MountTrees.PromotedIsMisaligned`).
* `OverlayLayers.MiddleBatchLosesWhiteouts`: collapsing layers is only sound because
  every batch reaches the bottom layer.

## Model

| member | source | states |
|---|---|---|
| Rules.ShownMeansLive | src/runtime/rules.rs:27-39 | a rule that could not be a derived parent is shown by any listing exactly when it is live with that payload |
| Rules.OrderedSorts | src/runtime/rules.rs:104-119 | the batch order is a permutation of the batch and sorted by depth, path and uid |
| Rules.PutBatchRespectsTopology | src/runtime/rules.rs:104-119 | in any prefix the kernel applies, a parent is put before its child |
| Rules.DeleteBatchRespectsTopology | src/runtime/rules.rs:104-119 | in every prefix a child is deleted before its parent, exactly when the parent is not `/` or the child not directly below it |
| Rules.RootIsNotOrderedAfterItsChild | src/runtime/rules.rs:104-119 | a delete batch in which `/` comes before its child |
| Rules.VerifyResult | src/runtime/rules.rs:83-102 | passes exactly when every expected rule is shown and no obsolete key remains other than as a derived parent |
| Rules.AncestorMeans | src/runtime/rules.rs:41-46 | a path is above another exactly if that one continues it after a slash |
| Rules.CoreBits | src/runtime/rules.rs:25-31 | the flags that count are all but the lowest two |
| Rules.DerivedBits | src/vfs/protocol.rs:47-50 | a derived parent has no source, the second flag bit and no bit but the lowest two |
| Devices.Device.List | src/runtime/rules.rs:17-21 | any listing of the live rules, or a failure unless the stage works |
| Devices.Device.Put | src/runtime/rules.rs:17-21 | any prefix is applied in order, each record leaving its own state in the history; the report is arbitrary unless the stage works |
| Devices.Device.Delete | src/runtime/rules.rs:17-21 | the same for a delete batch |
| RuleTransaction.ValidateUnique | src/runtime/rules.rs:70-81 | passes exactly when no key occurs twice |
| RuleTransaction.ValidateSnapshot | src/runtime/rules.rs:131-171 | accepts exactly the listings in which all saved rules are shown, keys are unique and no foreign rule is equal to, above or below an owned path, and returns the foreign ones |
| RuleTransaction.Rollback | src/runtime/rules.rs:220-272 | from any state whatsoever, a new key is deleted only while it carries the attempted payload and an old key overwritten only where it is free, derived or attempted; passing means restored; if recovery calls work and nobody else interfered, it passes, and in every state on the way saved rules have come back after their parents and introduced ones gone after their children |
| RuleTransaction.Apply | src/runtime/rules.rs:179-206 | every state on the way is within the owned keys, a desired rule is new only where its parents among the desired are live, and an obsolete one is gone only where its obsolete descendants are, unless it is `/` and they lie directly below; passing means every desired rule is live and no obsolete one |
| RuleTransaction.Reconcile | src/runtime/rules.rs:173-217 | it starts only where no other live rule is on, above or below an owned path, bare directories above it for all or the same UID excepted; in every state keys outside before and after are untouched; up to the turn to recovery parents come before children and go after them, and on the way back too if recovery calls work; success reaches the goal, without any failure reported; "rollback clean" means the entry state is back; if recovery calls work every failure after validation is clean; if the calls of its stage work it fails only by rejecting a snapshot that some listing of the live rules gives it |
| HotTransaction.Publish | src/runtime/transaction.rs:60-70 | adds and reads back the missing UIDs before any rule is put; every state keeps isolation ahead of publication; with working calls and admissible rules it publishes |
| HotTransaction.Recover | src/runtime/transaction.rs:71-98 | in every state a UID is gone only once the rules are those of the entry state again; reporting recovery means rules and UIDs are back; if recovery calls work it recovers, also where the rules were committed, as long as nothing speaks against the reverse run |
| HotTransaction.Reconcile | src/runtime/transaction.rs:16-115 | in every state: requested UIDs are isolated while anything new is live, any difference from the entry state is named by a stored, interrupted record, and a UID that was ever isolated is missing only once the rules are those of the entry again; a clean rollback restores rules and UIDs, a commit reaches the goal with a record that names it, without any failure reported; with working calls and admissible rules it commits, with working recovery calls every rollback is clean |
| HotTransaction.CommitKeepsOwnership | src/runtime/transaction.rs:40-46 | after a commit the recorded rules are the other modules' and the new ones, all live |
| Lifecycle.LedgerForBoot | src/runtime/ledger.rs:110-127 | a record of this boot is used as it is, in its own namespace and known schema only; another boot starts from a fresh one, clean and empty |
| Lifecycle.Start | src/runtime/boot.rs:26-40 | claims the ledger only from a clean one of this boot, or none of this boot, and otherwise changes nothing; with working calls it does claim it; every state keeps the ledger invariant |
| Lifecycle.Finish | src/runtime/boot.rs:76-133 | what is committed is the exact difference to the baseline but for strays, or an error record that names every live rule and UID; it is ready exactly if the boot succeeded and the first planned rule of every advertised target is live, and where one is not it keeps all that was pending; the rules it claims are exactly the planned ones that are live, the mounts exactly the new ones at reported targets, the UIDs exactly the requested ones that are isolated and were not before; with working calls it reports success exactly if every advertised target is served, and after a change of a baseline mount at a target it never commits |
| Lifecycle.CommitClaimsWhatIsLive | src/runtime/boot.rs:94-107 | the record to be committed claims exactly the planned rules that are live, and none exactly when none is |
| Lifecycle.Boot | src/runtime/boot.rs:26-133 | every state of a boot, failed at any step, keeps the ledger invariant; only planned keys change and only mounts of the pipeline are added; a ledger that is not clean is refused without effect; success claims the planned rules that are live and the new mounts at reported targets, and means that every advertised target is served; a ready record is stored only then; with working calls it succeeds exactly then and stores an error record otherwise, and every call of its pipeline takes effect in turn |
| Lifecycle.HotApply | src/runtime/hot.rs:150-244 | every state of a load, reload or unload keeps the invariant; success leaves a ready ledger that is the exact difference to the baseline and records the other modules' rules and the new ones and the requested UIDs that are new, all requested ones isolated; a guarded or unprepared operation, a ledger that is not ready or misses an isolated UID, a module with other ownership and one that is not active, or is for a load, are refused without effect; with working calls and nothing to refuse it succeeds |
| Lifecycle.CommitIsExact | src/runtime/hot.rs:208-244 | a committed transaction turns an exact ledger into an exact ledger |
| SoftReboot.CleanupVfs | src/runtime/boot.rs:175-205 | deletes only recorded rules and UIDs, and forgets them only when readback shows them gone; with working calls it does |
| SoftReboot.CleanupIsAdmissible | src/runtime/boot.rs:179-203 | while only recorded rules are on, above or below recorded paths, no recorded rule counts as changed and no listing speaks against deleting them |
| SoftReboot.ReleaseMounts | src/runtime/ledger.rs:81-99 | mounts and registrations stay recorded in every state unless both were released, and registrations are released only once every recorded mount is gone |
| SoftReboot.Cleanup | src/runtime/boot.rs:136-220 | success means the baseline but for contested rules and strays, a clean ledger, and exactly the recorded rules and mounts gone, without any failure reported; in every state UIDs, mounts and the record of the rules are as before unless all recorded rules are gone; invalid mounts, or mounts without a list of registrations, are refused without effect; every state of a failed cleanup names what is left and can still be cleaned; with working calls and no other rule in the way it succeeds from ready, syncing, cleaning or clean |
| SoftReboot.CleanableStays | src/runtime/boot.rs:175-213 | whatever part of a cleanup was done, nothing stands in the way of the rest |
| Runs.AnyRun | src/runtime/boot.rs:22-220 | over any sequence of boots, hot operations and cleanups, whatever keys their plans name and targets they report, and each possibly dying at any state: clean records nothing, ready is the exact difference to the baseline but for strays, interrupted names every live rule and UID, a baseline rule is gone only where a boot plan named its key, and once interrupted nothing changes until another boot |
| Runs.CleanMeansBaseline | src/runtime/boot.rs:136-172 | in any such state a clean ledger records nothing and every key no boot plan names is as in the baseline; its rules are the baseline's if no planned key was live there, its mounts if every boot reports the targets of all its mounts |
| Runs.BackToBaseline | src/runtime/boot.rs:94-107 | deleting what a boot claimed leads back to where it started exactly when it left every live rule on a planned key alone and none of those was identical to the planned one |
| Runs.PublishedPlan | src/vfs/exec.rs:94-125 | with every planned rule published or withdrawn, exactly when no planned key was taken |
| Runs.SkippedPlan | src/pipeline.rs:1812-1820 | with nothing published, exactly when no live rule was identical to a planned one |
| Runs.BootAndCleanup | src/runtime/boot.rs:26-220 | from a clean ledger over any live rules: if both succeed, the ledger is clean again and of what the boot left exactly the claimed rules and the new mounts at reported targets are gone, so the mounts are those of before exactly when all targets were reported; with working calls both succeed |
| Runs.TwinIsDeleted | src/runtime/boot.rs:94-107 | a boot that publishes nothing, then a cleanup, delete a rule someone else had put there |
| Runs.CleanupRetry | src/runtime/boot.rs:175-213 | after any number of attempts that failed or died anywhere, one that works ends clean with the recorded rules gone |
| MountCleanup.DeepestIsFirst | src/sys/mountinfo.rs:149-155 | the sorted list keeps the mounts and begins with one as deep as any, which sorts last among those as deep |
| MountCleanup.ComponentsOfParts | src/runtime/mounts.rs:99-110 | however a path is written, its components are the parts between slashes but for nothing and a single dot |
| MountCleanup.CaptureSnapshot | src/runtime/mounts.rs:27-55 | captures exactly the new mounts at recorded targets, each with the baseline IDs of its path; fails exactly when a baseline ID there changed identity |
| MountCleanup.CaptureInSets | src/runtime/mounts.rs:27-55 | on a baseline with unique IDs, a capture fails exactly when a baseline mount at a reported target is no longer the same one, and otherwise keeps exactly the new mounts there: what `Lifecycle.Finish` takes a capture to be |
| MountCleanup.Preflight | src/runtime/mounts.rs:59-116 | succeeds exactly when IDs are unique, identities unchanged, nothing foreign is on a recorded target or below a live one; returns the live owned mounts, deepest first |
| MountCleanup.UndisputedPasses | src/runtime/mounts.rs:59-116 | those conditions, spelled out mount by mount |
| MountCleanup.CapturePassesPreflight | src/runtime/mounts.rs:27-116 | what was captured passes preflight on the same snapshot exactly when nothing foreign lies strictly below it |
| MountCleanup.FewerMountsStillPass | src/runtime/mounts.rs:59-116 | losing mounts never makes a passed preflight fail |
| MountCleanup.VerifyVisible | src/runtime/mounts.rs:118-133 | passes only if every path of an active mount shows an active mount |
| MountCleanup.CleanupWith | src/runtime/mounts.rs:135-166 | terminates; only owned mounts ever go, whatever a detach takes along, and paths are asked for deepest first; a failed first preflight changes nothing; success leaves exactly the other mounts; with working calls it succeeds exactly when preflight passes and owned mounts are on top of every stack; both conditions survive any failure |
| MountCleanup.Cleanup | src/runtime/mounts.rs:239-252 | a disputed record or table changes nothing; success leaves no recorded mount and on a recorded path only what was there before; other mounts are never lost; a failed attempt stays undisputed; with working calls it succeeds exactly if undisputed with owned mounts on top |
| MountCleanup.Retry | src/runtime/mounts.rs:241-252 | after any number of interrupted attempts, one that works ends where the first would have |
| MountTrees.FirstFor | src/mount_tree.rs:90-92 | the winning source has the backend asked for, and there is none exactly when no source has it |
| MountTrees.BackendOccurs | src/mount_tree.rs:110-117 | a node carries a backend exactly if some contribution at or below it does |
| MountTrees.Inserted | src/mount_tree.rs:154-207 | inserting adds one contribution at its target and moves no other |
| MountTrees.InsertedStructural | src/mount_tree.rs:161-200 | inserting notes exactly one module directory on each node of the way where there is one to note, and nothing elsewhere |
| MountTrees.StructuralAligned | src/mount_tree.rs:161-200 | what is noted is the directory that stands for the node exactly when the target has no more components than the module path, or at the target itself |
| MountTrees.PromotedIsMisaligned | src/mount_tree.rs:161-200 | a longer target and the wrong directory it notes |
| MountTrees.InsertKeepsOrder | src/mount_tree.rs:201-206 | insertion keeps every node's contributions sorted by module and path |
| MountTrees.WinnerIsLeast | src/mount_tree.rs:89-92 | the contribution that wins for a backend has the module ID that sorts first by its first different character, and of that module the path that does |
| MagicMount.MergeSeen | src/magic_mount/exec.rs:107-131 | the merged tree shows at every path what the deepest contribution on the way says, and the stock entry, reached through links where there are any, where there is none |
| MagicMount.ContributionIsSeen | src/magic_mount/exec.rs:107-131 | the winning magic file of a node is what is seen at its path, whatever stock has there, if only directories are contributed on the way |
| MagicMount.MountsAtPlaces | src/magic_mount/exec.rs:206-256 | executing a tree makes a mount exactly at each regular file and each skeleton that only directories kept in place lead to; a skeleton is a directory that is replaced, or has a selected child that meets nothing, another kind, a link, or is a link or the removal of something there |
| MagicMount.ReplaceIsShallow | src/magic_mount/exec.rs:274-309 | a contribution hides all stock exactly when every directory in it that meets stock entries replaces them or names them all |
| MagicMount.ReplacedButVisible | src/magic_mount/exec.rs:274-309 | a replaced directory in which a stock file stays visible |
| MagicMount.StockBelowReplaceSurvives | src/magic_mount/exec.rs:274-309 | a stock entry in a plain directory below a replaced one stays visible unless contributed over |
| MagicMount.StagedComplete | src/magic_mount/exec.rs:274-309 | a skeleton in which every surviving stock name and every selected name was handled is the merged directory |
| MagicMount.InPlaceComplete | src/magic_mount/exec.rs:364-410 | a directory edited in place in which every selected name was handled is the merged directory |
| MagicMount.Namespace.MountRegularFile | src/magic_mount/exec.rs:160-204 | a bind on the real path or in staging, handed on or its undo tried |
| MagicMount.Namespace.Mirror | src/magic_mount/exec.rs:586-650 | success copies the stock entry into staging exactly, every bind recorded |
| MagicMount.Namespace.NeedsTmpfs | src/magic_mount/exec.rs:209-256 | a skeleton is needed exactly when some selected child cannot be mounted onto what is there |
| MagicMount.Namespace.MountPath | src/magic_mount/exec.rs:364-410 | handles exactly the entries already there, children in the tree by execution, the rest mirrored or left |
| MagicMount.Namespace.MountDirectory | src/magic_mount/exec.rs:206-360 | both strategies leave the merged directory: in view when in place or moved, in staging inside a skeleton; in view the mounts are exactly where a skeleton or a file calls for one |
| MagicMount.Namespace.DoMount | src/magic_mount/exec.rs:107-131 | success leaves exactly the merged tree at the node's path; on every outcome mounts are at or below it at unrelated paths, each node ran at most once, and each bind or move was handed on or its undo tried; it succeeds only if nothing stands in the way, and with working calls exactly then |
| MagicMount.Namespace.Execute | src/magic_mount/exec.rs:456-510 | the same for a whole run from the root, whose mounts are exactly at the files and skeletons that only directories kept in place lead to; with working calls it succeeds exactly when every plain directory meets a directory or nothing, none lies below a stock file, and each has a directory to take its metadata from |
| MagicMount.DirectoryOverFile | src/magic_mount/exec.rs:364-410 | a plain directory over a stock file, so that the run from the root fails |
| Partitions.SameTarget | src/partitions.rs:81-132 | two module paths map to one target exactly when they are spellings of one path |
| Partitions.SpellingsMap | src/partitions.rs:81-132 | where each spelling goes: both spellings of a known partition below its root, `system/Q` for any other Q below the system root, anything else below what its first component stands for, and nothing in a failed partition or with an invalid component |
| Partitions.TargetBelowRoot | src/partitions.rs:99-132 | every target is at or below the root of its partition, which is usable |
| Partitions.ErrorStaysLocal | src/partitions.rs:81-132 | a partition that fails takes exactly its own two spellings with it and changes no other mapping |
| Partitions.SubtreeListsChildren | src/partitions.rs:153-192 | an identity lists exactly the visible child mounts, and fails exactly when one of the mounts below could not be inspected |
| Partitions.ReadIdentity | src/partitions.rs:153-192 | one pass over the mount table yields that identity |
| Partitions.ChosenRoot | src/partitions.rs:194-261 | a chosen root is a visible directory at one of the two allowed places; where both can be seen they are one directory; a top-level one is a mount point itself unless /system leads to it |
| Partitions.ChosenStandsFor | src/partitions.rs:194-261 | the chosen directory, in terms of the snapshot alone: the top-level one if only it is seen and it is a mount point, the nested one if only it is seen, either if both lead to one path, and of two bind aliases with equal inode, device, filesystem root and child mounts the top-level one exactly if it is a mount point; none otherwise |
| Partitions.DiscoverLayout | src/partitions.rs:263-375 | every managed partition is recorded, with its identity, at the directory that stands for it if all mounts below could be inspected, and failed otherwise, missing exactly if neither place was seen; an extra one is recorded as it is seen at its top-level place; nothing else is known; mount points are exactly the visible ones; roots are where the mapping theorem needs them |
| ModulePlan.MostSpecificRuleWins | src/plan/mod.rs:103-150 | the mode of an entry is that of the most specific rule covering it, else the default, with an unavailable VFS read as ignore |
| ModulePlan.Decide | src/plan/mod.rs:295-372 | keeps exactly the entries that are not blocked, not in a failed partition and not partition aliases, each with its mode |
| ModulePlan.KeptIsHarmless | src/plan/mod.rs:326-342 | no kept replacement, link or removal is above a visible mount or one of the three places of a partition that is there but unusable, and no removal is on one |
| ModulePlan.KeptExactly | src/plan/mod.rs:295-372 | an entry is kept exactly if nothing active at or above it removes a partition root or hides such a place, its partition has not failed and it is no link from one spelling of a partition to the other |
| ModulePlan.BlockedIsDropped | src/plan/mod.rs:344-351 | nothing at or below a blocked entry is kept |
| ModulePlan.BlockedReachesNoOverlay | src/plan/mod.rs:344-466 | no overlay layer and no single file of a module is at or below a blocked path |
| ModulePlan.LayersApart | src/plan/mod.rs:421-446 | no two overlay layers of a module nest |
| ModulePlan.ServedOnce | src/plan/mod.rs:421-555 | every overlay entry below its partition root is in exactly one layer, or is exactly one single file |
| ModulePlan.RootLayerReplaces | src/plan/mod.rs:493-539 | a module laid out as a whole goes onto a partition root only to replace it |
| ModulePlan.LayerShowsAtTarget | src/plan/mod.rs:438-446 | when a layer shows an entry at the entry's own target, and when not |
| PlanConflicts.PlanBuilder.Register | src/plan/mod.rs:185-221 | reports the first earlier assignment that cannot share the target, or records the new one |
| PlanConflicts.FirstDescendantSource | src/plan/mod.rs:737-747 | finds a source of a backend strictly below a node exactly when there is one |
| PlanConflicts.EnsureReplaceBackendConsistency | src/plan/mod.rs:598-623 | passes only if no overlay source is below a magic replacement; a report names two that clash |
| PlanConflicts.EnsureVfsNotShadowed | src/plan/mod.rs:630-666 | the claim carried down stands for all pairs: passes only if no VFS source is below a mounted directory |
| PlanConflicts.EnsureVfsOpaqueExclusive | src/plan/mod.rs:671-703 | passes only if no other source, ignored ones included, is at or below a VFS replacement |
| PlanConflicts.EnsureWhiteoutExclusive | src/plan/mod.rs:705-735 | passes only if nothing active but whiteouts is on an active whiteout and nothing active below it |
| PlanConflicts.TreeConflicts | src/plan/mod.rs:598-735 | a tree is free of all four clashes and shareable exactly when no pair of its contributions conflicts |
| PlanConflicts.ConflictKinds | src/plan/mod.rs:598-735 | what a conflicting pair is, in terms of targets, backends, kinds and replacement alone, is what allocation and the four walkers look for |
| PlanConflicts.Plan | src/plan/mod.rs:185-221 | inserting, registering and walking fails exactly when two contributions conflict, and names such a pair |
| Planner.LayersSurvive | src/plan/mod.rs:223-236 | every layer of a module survives in the table exactly when its layers spell no partition in two ways |
| Planner.TwoSpellingsLoseALayer | src/plan/mod.rs:223-236 | a module with `system/vendor/etc` and `vendor/etc` loses a layer |
| Planner.LayersKeepSpelling | src/plan/mod.rs:421-446 | a module that spells every partition in one way has layers that do |
| Planner.PlanProtects | src/plan/mod.rs:326-351 | no active replacement, link or removal in the tree of a built plan is above a visible mount or a place of an unusable partition, and no removal is on one |
| Planner.PlanFilesProtect | src/plan/mod.rs:326-351 | nor does one among the single files of a built plan |
| Planner.OnlyPlainEntriesCover | src/plan/mod.rs:326-342 | a kept, active entry covers a protected path exactly when it is a plain directory or a regular file: some module has one of either kind, none of another |
| Planner.BareLayerNeedsOther | src/plan/mod.rs:400-446 | the bare system directory is a layer without being replaced only in a module that keeps some entry which is not an overlay one |
| Planner.BareSystemSwallows | src/plan/mod.rs:400-446 | a module whose layer for the bare system directory holds its entry `system/vendor`, which has another target |
| Planner.Planner.ProcessModule | src/plan/mod.rs:289-471 | adds exactly the kept entries to the tree, each layer and single file to its table at its target, and leaves other modules' alone |
| Planner.BuildPlan | src/plan/mod.rs:69-94 | on valid paths and a usable system directory the plan fails exactly when two kept entries conflict, and names two that do; a plan that is built holds exactly the contributions, the layers and the single files of the modules |
| Planner.OwnTables | src/plan/mod.rs:223-262 | with unique module IDs, the layers and single files listed for a module in a built plan are exactly its own |
| Planner.PlanAvoidsBlocked | src/plan/mod.rs:344-351 | nothing of a module at or below one of its blocked paths is in the tree, the layer table or the file table of a built plan |
| Planner.PlanServesOnce | src/plan/mod.rs:374-555 | in a built plan, a module that spells each partition in one way has every overlay entry below the partition roots served exactly once, by the layer of one target or as a single file of one directory |
| OverlayReroute.ResolveOverlayDirectoryTarget | src/pipeline.rs:1293-1365 | finds the existing target or the nearest directory above a missing one, never the root, and fails exactly when there is neither |
| OverlayReroute.RouteIsUnique | src/pipeline.rs:1293-1365 | a target has at most one route |
| OverlayReroute.OneRoute | src/pipeline.rs:1451-1476 | a layer is mounted directly or comes in through exactly one mount point |
| OverlayReroute.EntriesLandWhereWanted | src/pipeline.rs:1434-1449 | rerouted, every source still goes to the place it was meant for |
| OverlayReroute.WantedAt | src/pipeline.rs:1434-1449 | that place is the target itself for a directory, and a file of its own last name in it for a single file |
| OverlayReroute.Execution.BuildExecutionPlan | src/pipeline.rs:1413-1487 | every layer and single file is in the execution plan exactly once, at its own final place, and the entries of a mount are sorted by source and place; fails exactly when some target cannot be reached or a file has no name |
| OverlayReroute.OrderIsKept | src/pipeline.rs:1479-1485 | of two sources that were given in ascending order, the earlier one stays on top however many other entries share the mount |
| OverlayReroute.ModulesAreAscending | src/pipeline.rs:1464-1485 | the layers of modules listed by ID are in ascending order of their paths, whatever follows the ID |
| OverlayLayers.MountShowsLookup | src/overlayfs/overlayfs.rs:76-106 | a mounted tree shows at every path what looking it up through the layers finds |
| OverlayLayers.Overlays.CollapseStagingLayers | src/overlayfs/overlayfs.rs:94-106 | the result has at most 64 layers and shows the same at every path; every staging mount takes 63; n layers take ceil((n-64)/62) of them |
| OverlayLayers.Overlays.MountOverlayfs | src/overlayfs/overlayfs.rs:206-239 | what is mounted is the merge of all the layers given, and only staging mounts are reported; with working calls it is mounted |
| OverlayLayers.MiddleBatchLosesWhiteouts | src/overlayfs/overlayfs.rs:98-103 | a batch that does not reach the bottom would change what is seen |
| OverlayChildren.CollectedChildren | src/overlayfs/overlayfs.rs:115-133 | the child list holds exactly the mount points strictly below, sorted, parents before children |
| OverlayChildren.Preparer.PrepareChildren | src/overlayfs/overlayfs.rs:313-392 | the children handled directly are exactly the topmost ones |
| OverlayChildren.Preparer.PrepareOverlayView | src/overlayfs/overlayfs.rs:292-393 | terminates; on success every mount point at or below the root is back exactly once, at its relative path, with its module layers over its original content, and every overlay still had the places of the mounts directly below it; only staging mounts are reported |
| OverlayChildren.Preparer.MountOverlay | src/overlayfs/overlayfs.rs:399-448 | a failure leaves the live root alone and reports no target; success publishes the complete view and then reports the root and every child; it succeeds only if the module changes no kind of child mount and each overlay shows the place of every mount directly below it with no link on the way; with working calls, and mount points that exist in the trees they are mounted on, exactly then |
| OverlayChildren.PlaceIsTop | src/overlayfs/overlayfs.rs:325-338 | a place that is reached without links shows the topmost thing that any layer has there |
| OverlayChildren.PlaceKeepsKind | src/overlayfs/overlayfs.rs:325-390 | where the module changes no kind of child mount, the place of a child is a directory exactly when the child is |
| OverlayChildren.FileOverDirectoryLosesPlace | src/overlayfs/overlayfs.rs:329-342 | a module file on the way to a directory mount changes no kind of mount and yet loses its place |
| OverlayChildren.CompleteIsPreservable | src/overlayfs/overlayfs.rs:340-390 | a complete view exists only if the module has directories, or links to some, over every child directory and a file on top, not a link, over every other child, where it has anything |
| MountOptions.EscapeMountOptionValue | src/overlayfs/overlayfs.rs:80-89 | the escaped value unescapes to the original |
| MountOptions.LowerdirRoundTrip | src/overlayfs/overlayfs.rs:170-174 | split at unescaped colons and unescaped, the joined layers are the original list, whatever characters they hold |
| MountOptions.MountDataSplits | src/overlayfs/overlayfs.rs:170-183 | split at unescaped commas, the data is exactly the lowerdir, upperdir and workdir options |
| MountOptions.BuildMountData | src/overlayfs/overlayfs.rs:170-183 | builds that data |
| Ext4Sizing.PlannedIsLeast | src/storage/ext4.rs:149-162 | the planned size is the least multiple of 4 MiB, of at least 64 MiB, that holds five quarters of the data and 16 MiB, and 4 KiB for each of five quarters of the entries, or 2^64-1 where that is out of range |
| Ext4Sizing.LeastAlignedIsLeast | src/storage/ext4.rs:76-86 | no smaller multiple would do |
| Ext4Sizing.PlannedIsMonotone | src/storage/ext4.rs:149-162 | staging more never plans a smaller image |
| Ext4Sizing.SmallBlocksUpTo | src/storage/ext4.rs:101-128 | 1 KiB blocks are chosen exactly up to 256 MiB, which is at most 32 groups |
| Ext4Sizing.SizeCounter.AddFile | src/storage/ext4.rs:56-61 | adds the length rounded up to 1 KiB, saturating |
| Ext4Sizing.CalculateTotalSize | src/storage/ext4.rs:217-252 | the totals are the exact sums over everything below the paths, saturated once; fails exactly when something cannot be inspected |
| Ext4Sizing.OrderDoesNotMatter | src/storage/ext4.rs:241-243 | the totals do not depend on the order in which directories list their entries |

## Left out

- Real system calls, device adapters, logging, timing, fault injection, configuration, scanner and state files: calls are fallible operations of the models, their inputs are parameters.
- Metadata copied to staging and targets (mode, owner, SELinux context, mount propagation, read-only remounts): best effort, no effect on what the models show; a remount can fail.
- Device files, sockets and pipes in the stock tree, which `mount_mirror` drops silently, are not in the tree model.
- Writers other than the runtime: `RuleTransaction.Rollback` is proved from any state, the other statements assume nobody else changes rules, UIDs or mounts during a run.
- The topology bits of the kernel (which live rules are derived) are an arbitrary choice of each listing; the NoMount provider and the branches for a kernel without rules are not modelled.
- The crash guards, the keyring protocol, `MountTransaction`, module snapshots and the overflow of the generation counter are not modelled.
- Runs.AnyRun: requires what the planner ensures, that a rule has a source or a whiteout or opaque flag (so it cannot be mistaken for a derived parent) and that a boot plan has one rule per key.
- SoftReboot.Cleanup: the condition for success, only live rules listed and no other live rule on, above or below a recorded path, is enough and not exact: a derived parent above a recorded path does no harm.
- HotTransaction.Reconcile: requires the old rules of the module to be among the recorded ones, as its only caller selects them.
- Lifecycle.Finish: which targets a boot reports is a parameter, as is what its pipeline mounts.
- SoftReboot.ReleaseMounts: mounts are a set here, without order; which mounts a detach may take along is the subject of `MountCleanup`. The registrations themselves are not modelled, only whether the call that releases them succeeded.
- MountCleanup.CleanupWith: visibility is modelled per path; a mount over an ancestor directory that hides a deeper path is not modelled. Mount IDs are unique and the kernel writes every mount point in one way.
- MountTrees.Inserted: insertion is a function from tree to tree; the node reference that the source moves down is not modelled.
- MagicMount.Namespace.Execute: what a stock link leads to is as it was at the start of the run, and a link of a module is not followed. The root is a directory. Staging starts empty at every node; that the real paths of the staging area are apart from the targets is assumed.
- MagicMount.Namespace.Mirror: what a link leads to is copied unchanged; a relative link in a directory that was itself reached through a link may lead elsewhere from its new place.
- ModulePlan.ServedOnce: for what the scanner delivers, valid paths, each once, with only directories above others. Diagnostics for invalid markers and per-module lists are not modelled.
- ModulePlan.MostSpecificRuleWins: rule keys are component lists without empty parts; a key that trims to nothing matches nothing in the source and is excluded.
- Partitions.SameTarget: for a system directory at `/system` and roots at `/P` or `/system/P`; `Partitions.DiscoverLayout` shows that discovery delivers such a layout unless `/system` or an extra partition is a symlink elsewhere. Error texts are codes.
- Planner.BuildPlan: a module path with an invalid component, or a file standing for a partition in a system directory that is itself unusable, ends the plan with an error that is not a conflict; both are told apart in the contract.
- The blacklist, disabled modules and the sorting of modules by ID happen before `Planner.BuildPlan`.
- OverlayLayers.Overlays.MountOverlayfs: the writable upper directory and the kernel's limit on stacking depth are not modelled; layers are directories.
- OverlayChildren.Preparer.MountOverlay: a mount point that is not a directory has none below it. That working calls succeed is claimed for mount points that exist, in their kind, in the tree they are mounted on, which the kernel sees to when they are mounted.
- OverlayReroute.Execution.BuildExecutionPlan: paths are absolute; the entries are described as a multiset and by the order they are in.
- Ext4Sizing.PlannedIsLeast: says nothing about whether a file system of that size holds the files; sizes are counted in 1 KiB units even where 4 KiB blocks are chosen.
