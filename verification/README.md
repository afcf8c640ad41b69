# IO limiter operator: model and proofs

The operator limits the disk IO of Kubernetes pods. A controller merges every `IOLimiter` that selects a pod
into one `PodIOLimit` object; an agent on the pod's node resolves the object's volumes to block devices and
writes one cgroup v2 `io.max` rule per device. Because the kernel does not remember who wrote a rule, the agent
records in `status.devices` what it is about to write, and a finalizer keeps the object alive until every
recorded rule is reset. This project models that logic in Dafny and proves what it promises.

`dafny verify dfyconfig.toml` checks everything.

## How it is organised

| file | what it models |
|---|---|
| `Limits.dfy`, `Kernel.dfy` | four-field limits, the kernel's answer to a write, the controller's and the agent's separate "per-field minimum", the int64 to uint64 conversion |
| `Names.dfy` | sorted lists of names |
| `Desired.dfy`, `Rounds.dfy` | `desired.Compute` and what it does over many rounds that feed its output back in |
| `SpecSync.dfy` | choosing the limiters of a pod, comparing specs, patching |
| `SelectorCache.dfy` | the parsed-selector cache under concurrent lookups |
| `Grouping.dfy`, `EndToEnd.dfy` | the agent's merge per device, and the whole way from limiters to a kernel rule |
| `Status.dfy`, `Outcome.dfy` | what a reconcile of the agent reports and leaves behind |
| `Protocol.dfy` | the ownership and release protocol as a state machine with lagging reads, conflicts, crashes, edits, drift and pod death |
| `Trails.dfy` | recorded interleavings, and strategies of everybody else, for the imperative code |
| `Agent.dfy` | the agent's reconcile and release as imperative code against an arbitrary strategy of everybody else |
| `Reconciler.dfy` | what both agents share, and the reconcile while nobody else moves, where it settles |
| `Controller.dfy` | the controller's reconcile and finalizer removal as imperative code against an arbitrary strategy of everyone else |
| `Exceptions.dfy` | the two exceptions of ownership, exactly and with a run each |
| `Text.dfy`, `Paths.dfy` | the string and path operations of Go's library that the parsers use |
| `IoMax.dfy`, `MountInfo.dfy`, `Cgroup.dfy`, `Backoff.dfy` | `io.max` text and kernel writes, `mountinfo`, pod cgroup paths, the retry interval |
| `Tally.dfy` | the `IOLimiter` status: verdict per pod, counters, Ready |

The main results, hardest first:

* **Release safety** over whole runs (`ReleaseSafety`, `FinalizerComesOffSafely`): reads may lag arbitrarily but do
  not go back; whatever interleaves, an object that is gone before its pod was seen gone leaves no agent rule
  behind. If nobody else wrote, the pod's `io.max` is then empty (`ReleaseLeavesKernelEmpty`).
* **Write-ahead ownership** in every reachable state (`WriteAheadOwnership`) and **stability of emptiness**
  (`EmptinessIsStable`), which is why the controller need not re-check `status.devices` on the fresh copy.
* Both parties' **imperative code under every interleaving** (`NodeAgent.Reconcile`, `PodController.Reconcile`): it
  is a run of the protocol, its conflicts are real, and its events follow a saved status. As long as nobody else
  writes to `io.max`, the status a finished enforcement leaves **tells the truth**: a volume it reports Applied sits
  on a device whose line is the minimum of all limits on it.
* **Convergence**: one undisturbed reconcile settles an object if and only if no device's merged rule is all-max
  (`ConvergesInOneReconcile`); the controller's rounds never produce such a rule (`NeverAllMax`).
* **Quiescence, freezing and order independence** of the controller (`ComputeIsIdempotent`, `FreezeNeverLoosens`,
  `OrderDoesNotMatter`), and one **flat minimum** from limiters to the kernel (`KernelRuleOfContributions`).

Six properties one might expect are not true of the code as it stands. Each has its exact condition and an input:

* A rule is written to a device that no record lists, but only once the controller has seen the pod gone and
  stripped the object: `WriteAheadOwnership` has no other exception, and `WriteAfterStripping` reaches this one.
* A *reset* can reach a device that is no longer recorded, when the agent's read is older than its own last status
  update. `ResetIsOwnedExactly` gives the condition; in `ResetOfForeignLine` a foreign line is removed this way.
* A reconcile does not settle when a merged rule is all-max (`ConvergesInOneReconcile`, `AllMaxNeverSettles`).
* A frozen contribution is lost as soon as the volume drops out of the output for one round: what any history had put
  in force stays in force if and only if the volume resolves in every round (`FreezeLastsExactly`, `FreezeIsLost`).
* `pendingBackoff` does not return when both arguments lie beyond the last doubling an int64 holds, about 272 years
  (`StopsExactly`, `LargestDurationsNeverEnd`).
* A mount point is read back if and only if no white space starts in it that the kernel leaves unescaped: carriage
  return, vertical tab, form feed, and the white space of Unicode outside ASCII, such as the no-break space
  (`MountInfo.LineRoundTrip`, `CarriageReturnIsCut`, `NoBreakSpaceIsCut`).

A failed write that the controller recorded on an `IOLimiter` counts as a failed pod, yet with no matching pod the
limiter is Ready all the same; `Tally.ReasonTells` spells that out.

## Model

| member | source | states |
|---|---|---|
| `Protocol.StepKeepsInv` | internal/agent/reconciler.go:107-296 | every step of agent, controller and environment keeps the ownership, history and window invariants |
| `Protocol.RunInv` | internal/controller/pod_controller.go:91-234 | the invariant holds in every state of every interleaving |
| `Protocol.ReleaseSafety` | internal/controller/pod_controller.go:134-206 | once the object is gone before its pod was seen gone, no device the agent wrote to is left unreset |
| `Protocol.ReleaseLeavesKernelEmpty` | internal/controller/pod_controller.go:134-206 | the same of the kernel: from an empty file and without drift, its lines are then all gone |
| `Protocol.KernelIsWritten` | internal/agent/reconciler.go:238-283 | from an empty file and without drift, every line is one the agent wrote and has not reset |
| `Protocol.WriteAheadOwnership` | internal/agent/reconciler.go:322-352 | in every reachable state what was written and not reset is in the persisted `status.devices`, and a rule is only written to a device listed there, unless the object was stripped after its pod was seen gone |
| `Protocol.IntentSays` | internal/agent/reconciler.go:322-352 | the record to persist: a wanted device not recorded with its rule gets it, not yet applied, every other entry stays; it differs from the old one exactly when some device is changed |
| `Protocol.TouchesOnlyOwnedLines` | internal/agent/reconciler.go:238-283 | apart from drift only an apply or reset changes a line, only its own device's, and only one some version listed; a reset on a recent read is of a device still listed |
| `Protocol.EmptinessIsStable` | internal/controller/pod_controller.go:194-202 | from the first terminating version on, the object stays terminating and its devices only shrink |
| `Protocol.FinalizerComesOffSafely` | internal/controller/finalizer.go:48-86 | the finalizer leaves an object with devices only when the pod was seen gone and is gone; only that patch removes it |
| `Protocol.SaveKeepsInv` | internal/agent/reconciler.go:605-637 | a status update that wins its optimistic lock keeps every invariant, and so does one that loses |
| `Protocol.IntentCommitKeepsInv` | internal/agent/reconciler.go:322-352 | persisting the intent keeps every invariant, for any version read |
| `Protocol.ApplyKeepsInv` | internal/agent/reconciler.go:358-485 | a kernel write, accepted, refused or silently altered, keeps every invariant |
| `Protocol.ResetKeepsInv` | internal/agent/reconciler.go:487-501 | a reset, successful or failed, keeps every invariant |
| `Protocol.CreateKeepsInv` | internal/controller/pod_controller.go:273-334 | creating the object on the strength of a lagging list keeps every invariant |
| `Protocol.EditKeepsInv` | internal/controller/pod_controller.go:336-376 | an edit of the spec without a lock, by whomever, keeps every invariant |
| `Protocol.PatchKeepsInv` | internal/controller/pod_controller.go:336-376 | so does the controller's patch, also when the object is gone |
| `Protocol.UnfinalizeKeepsInv` | internal/controller/finalizer.go:64-86 | the locked patch keeps every invariant |
| `Protocol.DeleteKeepsInv` | internal/controller/pod_controller.go:264-271 | a delete, by anyone and for any reason, keeps every invariant |
| `Exceptions.ResetIsOwnedExactly` | internal/agent/reconciler.go:278-283 | a device being reset is still recorded if and only if the object was not stripped and the agent's own last update lists it; a recent enough read ensures the latter |
| `Exceptions.ResetOfForeignLine` | internal/agent/reconciler.go:507-571 | a run in which a release decided on an old read removes a line that somebody else set |
| `Exceptions.WriteAfterStripping` | internal/controller/pod_controller.go:264-271 | a run in which a direct release strips the object mid-apply and the write that follows is recorded nowhere |
| `Controller.PodController.Reconcile` | internal/controller/pod_controller.go:91-234 | under every strategy of the others it is a run of the protocol and did, with an object it listed on the way, what `Act` states; it leaves no rule in a pod not seen gone |
| `Controller.PodController.Act` | internal/controller/pod_controller.go:134-234 | no live pod: the object ends absent or deleting, finished only if some version no older than the listed one shows it gone, requeued only if a newer version than the one read exists; live pod and terminating object: the same, and waiting iff it owns devices; otherwise the computed volumes, from the object's own, and it is deleted, created, patched or left alone accordingly, patched iff they differ by name |
| `Controller.PodController.RemoveFinalizerOptimistic` | internal/controller/finalizer.go:48-86 | true only if some version shows the object gone; false only if a newer version than the one read exists |
| `Controller.PodController.PatchLocked` | internal/controller/finalizer.go:64-80 | a conflict changes nothing; otherwise the object is gone |
| `Controller.PodController.ReleaseDirect` | internal/controller/pod_controller.go:264-271 | delete and strip for a pod without a live cgroup: true only if some version shows the object gone, false only if a newer version than the one read exists |
| `Controller.PodController.Handshake` | internal/controller/pod_controller.go:194-206 | waits, without a write, exactly while the listed object owns devices; finished only if the object is gone, requeued only if a newer version than the one read exists |
| `Controller.PodController.CreateObject` | internal/controller/pod_controller.go:273-334 | creates only where nothing exists, with the finalizer and no devices |
| `Controller.PodController.PatchObject` | internal/controller/pod_controller.go:336-376 | a new version of the server's current object with the new spec and the next generation, and nothing else changed; nothing when it is gone |
| `Trails.TrailIsRun` | internal/controller/pod_controller.go:91-234 | what the imperative methods record is a run, so the theorems about runs apply to them |
| `Trails.LeavesNothing` | internal/controller/pod_controller.go:134-206 | release safety of every recorded interleaving |
| `Trails.TrailInv` | internal/agent/reconciler.go:107-296 | every recorded interleaving ends in a state that satisfies the invariant |
| `Reconciler.ApplyDevice` | internal/agent/reconciler.go:358-485 | for the line read and the line there now: line left, ownership, volume outcomes and event for each kernel answer; no write when the line read is right |
| `Reconciler.ResetDevice` | internal/agent/reconciler.go:487-501 | a refused reset keeps line and ownership, any other removes both |
| `Agent.NodeAgent.RecordDeviceIntent` | internal/agent/reconciler.go:322-352 | no write without a change; the intent is committed against the version read; a conflict means a newer one exists, an error that the object is gone, and either ends the reconcile |
| `Agent.NodeAgent.ApplyOne` | internal/agent/reconciler.go:358-485 | whatever drifted since the read: a write goes to a device recorded at that moment, and reported Applied after a write means the kernel shows the rule |
| `Agent.NodeAgent.ApplyAll` | internal/agent/reconciler.go:269-272 | the apply loop, in any order and under interference, decides every volume and device from the lines read |
| `Agent.NodeAgent.ResetAll` | internal/agent/reconciler.go:275-280 | the reset loop removes the ownership of exactly the devices whose reset was not refused |
| `Agent.NodeAgent.Save` | internal/agent/reconciler.go:605-637 | done only if a version no older than the last one read carries the status; a conflict only if somebody else committed; an error only if a version shows the object gone |
| `Agent.NodeAgent.ReportUniformly` | internal/agent/reconciler.go:573-603 | when it finishes, a version no older than the last one read reports every volume in the one state and owns what it owned |
| `Agent.NodeAgent.Release` | internal/agent/reconciler.go:507-571 | when it finishes, a version no older than the last one read shows exactly the devices whose reset was refused, Released if there are none; the event only then |
| `Agent.NodeAgent.Reconcile` | internal/agent/reconciler.go:107-296 | under every strategy of the others: what is written is recorded; a conflict means a newer version than the one read, an error that a version shows the object gone or the host failed; nothing is told unless the reconcile finishes. A deleting object then shows exactly the devices whose reset was refused, Released if none, and its other lines are gone; an enforcement carries the verdict on the version and the kernel lines this reconcile read and tells each of its events once, and if nobody else writes to `io.max` the lines are those decided and every version with that verdict is true of them |
| `Agent.NodeAgent.Handle` | internal/agent/reconciler.go:107-236 | the same from the version read on: release for a deleting object, else enforcement, one state for all volumes, or an error, as the host allows |
| `Agent.VerdictIsTrue` | internal/agent/reconciler.go:205-236 | a verdict and the lines after both loops: every volume is reported, and Applied means the device's line is the per-field minimum of all volumes on it |
| `Agent.VerdictReached` | internal/agent/reconciler.go:282-289 | the loops' result is the declared outcome of every device and volume for the lines and the version read |
| `Agent.UniformSays` | internal/agent/reconciler.go:573-603 | the uniform report has every volume of the spec in the one state, the observed generation, and that state as Ready reason |
| `Reconciler.AllTold` | internal/agent/reconciler.go:238-289 | over both loops each event of a wanted device and of each reset not refused is told exactly once, and no other |
| `Reconciler.QuietAgent.ApplyAll` | internal/agent/reconciler.go:269-272 | undisturbed, the apply loop brings every wanted device to its outcome and touches no other line |
| `Reconciler.QuietAgent.ResetAll` | internal/agent/reconciler.go:275-280 | undisturbed, the reset loop handles exactly the owned devices no longer wanted |
| `Reconciler.QuietAgent.Reconcile` | internal/agent/reconciler.go:262-290 | undisturbed, new kernel, ownership and report are those of `Reconciled`; exactly when it writes to the kernel, to the API, or emits events |
| `Reconciler.QuietAgent.Settle` | internal/agent/reconciler.go:262-290 | a second reconcile makes no kernel write, no status write and emits nothing, whatever the kernel would answer |
| `Reconciler.QuietAgent.Release` | internal/agent/reconciler.go:507-571 | undisturbed, lines and ownership of every device, the event, and that once empty nothing written is left |
| `Reconciler.LoopsReconcile` | internal/agent/reconciler.go:262-290 | the two loops together compute the declared outcome of every device and volume |
| `Outcome.AppliedIsTrue` | internal/agent/reconciler.go:205-236 | every spec volume is reported; one reported Applied sits on a device whose line is the per-field minimum of all volumes on it |
| `Outcome.DeviceOutcomeSays` | internal/agent/reconciler.go:358-485 | state and reason of a device for every line read and every kernel answer, reasons spelled out |
| `Outcome.OwnedSays` | internal/agent/reconciler.go:322-501 | a wanted device is owned with its rule, applied iff the line shows it or did when last recorded; another is forgotten unless its reset was refused |
| `Outcome.ApplyEventSays` | internal/agent/reconciler.go:358-485 | the one event of a device, if any, from what was recorded, what was read and what came of the write |
| `Outcome.ConvergesInOneReconcile` | internal/agent/reconciler.go:399-429 | from any status and kernel content, one accepted reconcile settles the object if and only if no merged rule is all-max |
| `Outcome.AllMaxNeverSettles` | internal/agent/reconciler.go:399-429 | a spec with one unlimited volume, which no reconcile settles |
| `Outcome.StatusSettles` | internal/agent/status.go:90-104 | afterwards kernel and record hold exactly the wanted rules, all applied |
| `Outcome.SecondIsNoOp` | internal/agent/status.go:145-186 | the following reconcile changes nothing and is silent |
| `Status.ReadyReasonOf` | internal/agent/status.go:106-130 | one pass of three flags gives Failed over Pending over Applied over Unsupported |
| `Status.ReadySays` | internal/agent/status.go:106-130 | when each Ready reason holds, in terms of the volumes' states |
| `Grouping.GroupByDevice` | internal/agent/resolve.go:121-139 | the loop computes the groups of the spec |
| `Grouping.GroupMembers` | internal/agent/resolve.go:121-139 | a device has a group iff a volume resolves to it, and the group names exactly those volumes |
| `Grouping.GroupRuleIsMin` | internal/agent/resolve.go:121-148 | the group's rule is the per-field minimum of the limits on the device |
| `Limits.ConversionKeeps` | internal/agent/resolve.go:141-156 | the conversion to uint64 keeps every value in range |
| `Limits.MergeAllIsMin` | internal/controller/desired/compute.go:263-276 | folding `mergeMin` over a list gives its minimum, field by field |
| `Limits.MinOfTwo` | internal/iomax/iomax.go:99-121 | both merge implementations give the minimum of the joined lists |
| `Desired.Compute` | internal/controller/desired/compute.go:113-195 | volumes and issues are those of the table of contributions |
| `Desired.CollectRows` | internal/controller/desired/compute.go:127-141 | the inner loop adds the rows of one limiter, and their issues |
| `Desired.Collect` | internal/controller/desired/compute.go:127-141 | the loops over limiters and rows fill the table of contributions and the issues |
| `Desired.MergeContribution` | internal/controller/desired/compute.go:203-260 | a valid row contributes its own fields, an invalid one the limiter's previous contribution, else its acceptable fields, all in terms of the row |
| `Desired.ContributionSays` | internal/controller/desired/compute.go:203-260 | field by field: IOPS are the row's own, a byte field is set iff its quantity is a whole number in range and then equals it; an unacceptable row keeps the limiter's previous contribution |
| `Desired.RowIssuesSay` | internal/controller/desired/compute.go:203-231 | one InvalidLimit issue for each byte field set to an unacceptable quantity |
| `Desired.DirSays` | internal/controller/desired/compute.go:309-335 | the directory of a volume name by the kind of its source; the claim of an ephemeral volume is pod name, dash, volume name |
| `Desired.MergeVolume` | internal/controller/desired/compute.go:177-191 | sorted sources, their contributions and the merged limits |
| `Desired.Assemble` | internal/controller/desired/compute.go:147-175 | a volume with a kubelet directory, or one issue for each of its sources |
| `Desired.ValidateBpsAccepts` | internal/controller/desired/compute.go:293-307 | exactly the whole numbers between 1Ki and 1Pi are accepted, as themselves |
| `Names.SortedIsUnique` | internal/controller/desired/compute.go:143-146 | the sorted listing of a set is unique, so map order cannot show |
| `Names.LessIsDictionaryOrder` | internal/controller/desired/compute.go:143-146 | the order of names is that of the first byte in which they differ |
| `Rounds.ContributionIsOwn` | internal/controller/desired/compute.go:127-141 | a limiter's entry depends on its own row and its own previous entry only |
| `Rounds.OrderDoesNotMatter` | internal/controller/selector.go:205-220 | for every reordering of the limiters the contributions, hence the output, are the same |
| `Rounds.OutputCarriesTable` | internal/controller/desired/compute.go:118-125 | reading the output back gives the contributions of the volumes that resolve |
| `Rounds.OutputSays` | internal/controller/desired/compute.go:127-191 | every volume of the output is at the directory of its name, and each contribution is, field by field, from the source's own row for it or its previous contribution |
| `Rounds.OutputLimits` | internal/controller/desired/compute.go:177-191 | every volume's limits are the field-wise minimum of its contributions, one for each source, sorted |
| `Rounds.RoundSays` | internal/controller/selector.go:184-222 | after a round a limiter contributes what its own row says if its selector matches, or is broken and it contributed to some volume before; otherwise nothing |
| `Rounds.ComputeIsIdempotent` | internal/controller/desired/compute.go:113-195 | with the cluster unchanged, a round from its own output returns the same volumes |
| `Rounds.FreezeNeverLoosens` | internal/controller/desired/compute.go:243-259 | over any number of rounds a limiter's contribution is its current row when valid, else its own last one |
| `Rounds.FreezeLastsExactly` | internal/controller/desired/compute.go:158-175 | over any number of rounds with a broken row, what any admitted history had put in force stays in force iff the volume resolves in every one |
| `Rounds.FreezeEndsWithTheVolume` | internal/controller/desired/compute.go:158-175 | what a limiter contributes after a round in which the volume did not resolve |
| `Rounds.FreezeIsLost` | internal/controller/desired/compute.go:118-125 | a valid row, a mistake, a claim unbound for one round: the limit survives the mistake and is then gone |
| `Rounds.DropsOut` | internal/controller/selector.go:193-221 | a deleted limiter, or one whose valid selector does not match, contributes nothing |
| `Rounds.RoundsWellFormed` | internal/controller/desired/compute.go:293-307 | along all rounds every contribution sets a field and keeps to the ranges |
| `Rounds.NoRowIsLost` | internal/controller/desired/compute.go:127-175 | a row that sets a limit is a source in the output, or an issue names that limiter and volume |
| `SpecSync.LimitersForPod` | internal/controller/selector.go:184-222 | exactly the matching limiters and those with a broken selector that are the source of some contribution, each once |
| `SpecSync.ListMatching` | internal/controller/selector.go:147-174 | exactly the limiters that match |
| `SpecSync.DiffVolumes` | internal/controller/pod_controller.go:528-588 | the names added, removed and changed |
| `SpecSync.NoDifference` | internal/controller/pod_controller.go:336-344 | nothing is listed iff the two specs are the same by name |
| `SpecSync.SyncSpec` | internal/controller/pod_controller.go:336-344 | the volumes of the round; a patch iff they differ |
| `SpecSync.SyncTwice` | internal/controller/pod_controller.go:336-344 | the pass after a pass sends no patch |
| `EndToEnd.RuleIsFlatMinimum` | internal/agent/resolve.go:121-148 | the two-stage merge equals one flat minimum over all contributions on the device |
| `EndToEnd.KernelRuleOfContributions` | internal/controller/desired/compute.go:177-191 | the kernel rule is that minimum, within the schema's ranges and never all-max |
| `EndToEnd.NeverAllMax` | internal/iomax/iomax.go:38-44 | after any rounds no rule formats to the reset line and the conversion changes no value |
| `EndToEnd.AddingALimiterTightens` | internal/iomax/iomax.go:96-106 | adding a limiter never raises or unsets a field of any device's rule |
| `SelectorCache.ValidateSelectorBounds` | internal/controller/selector.go:114-143 | accepts exactly the selectors within all bounds |
| `SelectorCache.CacheRefinesParsing` | internal/controller/selector.go:87-112 | under every interleaving each lookup returns what parsing its own selector returns, iff UID and generation determine that |
| `SelectorCache.AmbiguityIsVisible` | internal/controller/selector.go:87-105 | two selectors under one UID and generation make some lookup wrong |
| `IoMax.Parse` | internal/iomax/iomax.go:57-94 | the scanning loops compute the map of the lines, ignoring what is malformed; `ParsePairSays` and `LineRoundTrip` say what a line gives |
| `IoMax.ParsePairSays` | internal/iomax/iomax.go:66-89 | for every key and value text: a number below 2^64 in digits or max sets the key's field; anything else changes nothing |
| `IoMax.FormatText` | internal/iomax/iomax.go:41-51 | the text of every rule, with the four key names spelled out in order |
| `IoMax.KernelReadsRule` | internal/iomax/iomax.go:36-44 | a reader with its own key names reads the four words of every rule as that rule, whatever was there |
| `IoMax.LineRoundTrip` | internal/iomax/iomax.go:41-51 | parsing a formatted line adds exactly that rule, for all 64-bit values |
| `IoMax.FormatIsInjective` | internal/iomax/iomax.go:41-51 | two lines are equal iff device and rule are |
| `IoMax.ParseUndoesPrinting` | internal/iomax/iomax.go:57-94 | parsing the printed lines of distinct devices gives the same map |
| `IoMax.ReadDeviceLine` | internal/iomax/iomax.go:181-196 | the first trimmed line of the device, or none |
| `IoMax.LookupAgrees` | internal/agent/reconciler.go:787-793 | the raw lookup equals the parsed and reformatted line |
| `IoMax.WriteDecidesLine` | internal/iomax/iomax.go:138-144 | a formatted write alone decides its device's line although the kernel keeps unnamed keys; all-max removes it; no other line changes |
| `IoMax.LastWriteWins` | internal/iomax/iomax.go:158-177 | after any number of writes a device shows its last rule |
| `IoMax.IoMaxFile.Write` | internal/iomax/iomax.go:158-177 | one write, taken, refused or silently altered: the text sent sets, by the kernel's own key names, the lines of the protocol's kernel, and the result shows the device's line before and after |
| `IoMax.IoMaxFile.Reset` | internal/iomax/iomax.go:150-156 | an accepted reset removes the line and no other; a missing cgroup or device counts as done |
| `MountInfo.Unescape` | internal/mountinfo/mountinfo.go:62-78 | the loop computes the unescaped text |
| `MountInfo.UnescapeUndoesEscape` | internal/mountinfo/mountinfo.go:62-78 | it inverts the octal escaping of every string, for every set of escaped bytes that holds the backslash |
| `MountInfo.EscapesAreOctal` | internal/mountinfo/mountinfo.go:60-78 | the octal code of each of the four bytes the kernel escapes, undone in any context |
| `MountInfo.NotAnEscape` | internal/mountinfo/mountinfo.go:66-75 | a backslash before anything but three octal digits of a byte stands for itself |
| `MountInfo.Parse` | internal/mountinfo/mountinfo.go:38-58 | the scanning loop computes the entries of the lines |
| `MountInfo.ThirdAndFifth` | internal/mountinfo/mountinfo.go:42-53 | for every list of words: the third and the fifth make the entry, fewer than five make none |
| `MountInfo.LineRoundTrip` | internal/mountinfo/mountinfo.go:38-58 | a printed mount is read back iff no white space, of any width, starts in its mount point that the kernel leaves unescaped |
| `MountInfo.CarriageReturnIsCut` | internal/mountinfo/mountinfo.go:42-53 | a mount point with a carriage return that is not read back |
| `MountInfo.NoBreakSpaceIsCut` | internal/mountinfo/mountinfo.go:42-53 | a mount point with a no-break space that is not read back |
| `MountInfo.EscapedSpace` | internal/mountinfo/mountinfo.go:60-78 | escaping hides the white space it escapes and neither hides nor makes any other |
| `MountInfo.ParseUndoesPrinting` | internal/mountinfo/mountinfo.go:38-58 | a printed list of such mounts is read back in order |
| `MountInfo.MatchIsStructural` | internal/mountinfo/mountinfo.go:97-107 | the split-based test accepts exactly base/plugin/dir and base/plugin/dir/mount |
| `MountInfo.VolumesDirText` | internal/mountinfo/mountinfo.go:92-92 | for every rooted directory and plain UID the searched directory is its cleaned path followed by /pods/UID/volumes/ |
| `MountInfo.FindKubeletVolume` | internal/mountinfo/mountinfo.go:91-113 | the last structurally matching entry of any list, or none if there is none |
| `Paths.CleanDenotes` | internal/cgroup/cgroup.go:121-121 | path cleaning changes neither root nor meaning and is idempotent |
| `Cgroup.WithinExtends` | internal/cgroup/cgroup.go:132-141 | for every two paths: the guard accepts exactly when the cleaned one goes on from the cleaned base with a step down |
| `Cgroup.WithinIsBelow` | internal/cgroup/cgroup.go:132-141 | what it accepts leads strictly below the base from every working directory; of absolute paths it accepts all that do |
| `Cgroup.PodPathStaysBelow` | internal/cgroup/cgroup.go:96-126 | for every UID text a path is returned iff its components lead strictly below the base, and it denotes that place |
| `Cgroup.PlainUidGetsPath` | internal/cgroup/cgroup.go:96-126 | a UID without a slash always gets base plus the directories named after it |
| `Cgroup.PodPathText` | internal/cgroup/cgroup.go:96-126 | that path as text, for every rooted base: the directory names of both drivers and the three QoS classes spelled out; no path for another driver |
| `Cgroup.UuidPathsAreDistinct` | internal/cgroup/cgroup.go:96-126 | UUIDs get paths strictly below the base, equal iff UID and QoS class are, for both drivers |
| `Backoff.PendingBackoff` | internal/agent/reconciler.go:743-756 | base times a power of two capped at the ceiling, between base and ceiling, without overflow |
| `Backoff.BackoffInSeconds` | internal/agent/reconciler.go:743-756 | two seconds at first and under small ceilings; then at most what was waited and at most the ceiling, and below the ceiling more than half of what was waited |
| `Backoff.BackoffIsMonotone` | internal/agent/reconciler.go:743-756 | a longer wait never gives a shorter interval |
| `Backoff.StopsExactly` | internal/agent/reconciler.go:743-756 | the loop ends for exactly the arguments of which one is within the last 64-bit doubling |
| `Backoff.LargestDurationsNeverEnd` | internal/agent/reconciler.go:743-756 | with the largest int64 durations the loop never ends |
| `Tally.ComputeVolumesFor` | internal/controller/iolimiter_controller.go:411-424 | the volumes of the round, and a blocking issue of a limiter iff it is blocked |
| `Tally.BlockingIssues` | internal/controller/iolimiter_controller.go:456-478 | blocking issues exist iff a row is invalid or a limited volume exists but cannot be limited |
| `Tally.PodIOLimitStateFor` | internal/controller/iolimiter_controller.go:348-403 | Applied iff the current PodIOLimit reports every volume of the limiter Applied; Failed iff some is reported Failed or Unsupported |
| `Tally.VerdictsSay` | internal/controller/iolimiter_controller.go:222-280 | for a counted pod, in raw terms of rows, volumes and reported states: failed iff a row or volume cannot be limited or a volume of the limiter is reported Failed or Unsupported; applied iff none and all are reported Applied; else pending |
| `Tally.UncountedSay` | internal/controller/iolimiter_controller.go:133-236 | which pods are ignored and which count only as having none of the volumes |
| `Tally.Aggregate` | internal/controller/iolimiter_controller.go:379-402 | the loop's verdict in terms of all volumes |
| `Tally.PodEvalTally.EvalPod` | internal/controller/iolimiter_controller.go:222-280 | each counter moves exactly as the pod's outcome says |
| `Tally.PodEvalTally.EvalAll` | internal/controller/iolimiter_controller.go:133-146 | the counters hold the outcomes of exactly the listed pods, unless a needed lookup fails |
| `Tally.CountsAddUp` | internal/controller/iolimiter_controller.go:133-169 | matched is applied plus failed plus pending |
| `Tally.ReasonIsTrue` | internal/controller/iolimiter_controller.go:501-524 | each Ready reason holds iff its condition on the pods does |
| `Tally.Reconcile` | internal/controller/iolimiter_controller.go:77-169 | all counters, their conservation before the one added write failure, and the Ready reason; no status exactly when a needed lookup fails |
| `Tally.AppliedCoversEveryRow` | internal/controller/iolimiter_controller.go:348-403 | a pod counted applied has a current PodIOLimit of its UID in which every limiting row is Applied, unless the pod lacks the volume |

## Left out

- TouchesOnlyOwnedLines: for resets it claims a currently recorded device only for reads no older than the agent's last update and an object not stripped; the unconditional claim is false, `ResetIsOwnedExactly` has the exact condition.
- WriteAheadOwnership: has the exception of an object stripped after its pod was seen gone, which `WriteAfterStripping` reaches.
- PodPathStaysBelow: the base is absolute, as `Layout.Base` is documented to be, and symbolic links are not followed.
- PendingBackoff: stated for the arguments on which the loop ends, see `StopsExactly`.
- NodeAgent.Reconcile: that Applied is true at the end is stated for others who leave `io.max` alone; a line that somebody else changes after it was applied is found only by the next reconcile.
- AppliedIsTrue: the minimum is stated for limits that fit an unsigned word, which `NeverAllMax` shows of every computed spec.
- Reconciler.QuietAgent: its methods run one reconcile without interference, for convergence and quiescence; the same code under interference is `Agent.NodeAgent`. A crash between two steps is a step of `Protocol`, not a path of either class.
- PodController.Reconcile: PodIOLimits of other UIDs under the same pod name are separate objects, each with its own run. The full volume list of each version is given by a function that is not tied to the part of it which the protocol keeps.
- The Kubernetes API: a status update or locked patch commits only against the current version, a delete with a finalizer only marks, cached reads do not go back, one reconcile per object runs at a time, and only one controller reconcile patches a spec at a time.
- Manual removal of the finalizer by an administrator, which skips the reset on purpose.
- Host resolution (mount table, sysfs, protected devices) is a fixed function of the kubelet directory; the branches of `resolveVolume` are not modelled.
- The kernel answers a rule write by taking, refusing or altering it and a reset by taking or refusing it; a short write counts as refused and leaves the line as it was; a second line in one write is refused; new lines appear at the end.
- The order of status lists (kept sorted by the source, maps here), message texts, the five-entry caps and log lines.
- Quantities are rational numbers with `Value()` rounding up; IOPS ranges are those of the schema and are not re-checked by the code.
- Counters are unbounded where the source has int32.
- `bufio.Scanner`'s line length limit.
- The conversion of a bounded label selector by the Kubernetes library is an arbitrary function.
- A failing list of pods or a failing status update ends the tally's reconcile before or after the part modelled.
- Watch mappings, metrics, health probes, flags, kubepods discovery and manager wiring: no hard property.
