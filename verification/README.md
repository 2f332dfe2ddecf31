# Verified model of the vnprox daemon and command line

A Dafny model of the stateful cores of `vnproxd` and `vnproxctl`, with proofs of what they promise.
The programs work against systems they do not own (the Proxmox firewall API, the file system, the
SQLite store, `tc`, the daemon's HTTP and WebSocket endpoints). Each of those is a small state machine
whose calls may fail, and the code is modelled running against it. Methods mirror the source's loops
and assignments and are proved against functions; lemmas prove what those functions mean over every
input, every interleaving and every run of retries.

`dafny verify dfyconfig.toml` checks everything.

## What is modelled

| file | what it models |
|---|---|
| `PveFirewall.dfy` | the firewall API: what each call does to a scope; a client whose calls may fail or be lost after landing |
| `FwRestore.dfy`, `FwScope.dfy`, `FwEdits.dfy`, `FwIpsets.dfy` | capture, restore and multi-call edits of a firewall scope, whichever call fails |
| `HostAgent.dfy` | the mutex-protected interfaces file agent, over every interleaving of its steps |
| `Snapshots.dfy`, `RollbackNow.dfy` | the command line's restore when the daemon is down, and `rollback-now` over any run of attempts |
| `RunGroup.dfy` | the actor supervisor: goroutines, one buffered channel, a receive loop and a cancel flag |
| `QosKernel.dfy`, `Qos.dfy`, `QosHost.dfy`, `QosRestore.dfy`, `QosUpdate.dfy`, `QosRuns.dfy` | `tc` state, stored shapes, the gateway's log, and keeping one in step with the other: over a restore, an update or deletion, and runs of restores |
| `AutoCapture.dfy`, `FindingsGuard.dfy` | the storm cap's sliding window and the canary guard, against a ghost history of everything seen |
| `ApplyPoll.dfy`, `WatchLoop.dfy`, `WatchScript.dfy` | commit-confirm polling and the watch loop, against any daemon, network and clock; what the loop shows, read off the script of replies |
| `Text.dfy`, `DocTable.dfy`, `DocLines.dfy`, `DocCompare.dfy` | the documented-table parser, its printer, what it makes of any document line by line, and the two-way gate on it |
| `FlowScan.dfy`, `HumanBytes.dfy` | paginated scans that equal a plain filter; byte formatting in 64-bit arithmetic |

What the proofs found, beside what holds throughout:

- A captured policy or log level that was empty is not restored: the live value stays
  (`FwRestore.UnsetPolicyIsNotRestored`; `FwRestore.CaptureThenRestore` says exactly when the whole
  scope comes back).
- A failed reload restores the running state only if the second reload succeeds as well
  (`HostAgent.ReloadContract`, `HostAgent.SecondReloadFails`), and `RestoreInterfaces` is two locked steps:
  another caller's content can be what a successful restore commits, and a restore can report failure
  with its content live (`HostAgent.RestoreIsNotAtomic`; `HostAgent.RestoreReportsIff` and
  `HostAgent.RestoreAmongOthers` say exactly when).
- The command line names a backup by the second: two restores in one second share a backup, and the file
  first found is in none (`Snapshots.SecondBackupReplacesTheFirst`; `Snapshots.ContentSurvivesIff` says
  exactly which contents survive a run of attempts).
- Once `rollback-now` has finished a changeset on one node it is refused on every other
  (`RollbackNow.SecondNodeIsRefused`, `RollbackNow.CleanAttemptAfterAny`).
- The teardown of a shape with a match selector removes every filter of its bridge, not its own
  (`QosKernel.TeardownHitsTheBridge`), and rendering any shape points the bridge's default away from a
  whole-bridge shape rendered before it (`QosRestore.EveryShapeInForce`).
- A QoS restore leaves the kernel in step with the snapshot only under the condition of
  `QosRestore.KernelEqualsStoreIff`. With working `tc`, two dropped selector shapes on one bridge leak a
  class, because the second teardown stops at the filters the first one took
  (`QosRestore.DropsThatLeak`), and a whole-bridge shape dropped from a bridge that then has none leaves
  the bridge's default pointing at a class that is gone (`QosRestore.DroppedDefaultStays`). A teardown
  that fails is only logged and the row goes all the same; from then on no retry removes its class
  (`QosRestore.OrphanForEver`, `QosRestore.FailedTeardownIsForEver`). Resuming a restore brings back the
  rows; what the kernel ends as over any run of attempts is decided by `QosRuns.RunEndsInStepIff`.
- The comment in `updateShape` says tearing down first keeps the update correct for every field
  combination. It does not: a new rate for one of two selector shapes on a bridge takes the other's
  filter away (`QosUpdate.RateUpdateTakesTheNeighbour`; `QosUpdate.WorkingUpdateIff` and
  `QosUpdate.WorkingDeleteIff` are the exact conditions).
- A restored QoS row differs from the captured one when a row of the same id with another origin is
  alive, because an update never writes the node and the creation fields
  (`QosRestore.SnapshotComesBack`, `QosRestore.OtherOriginStays`).
- `apply --apply` exits with the timeout code for a changeset it has just seen committed, when its own
  confirm commits it at the deadline (`ApplyPoll.CommittedReportedAsTimeout`).
- A count just short of the next unit is printed as 1024.0 (`HumanBytes.PrintedTenths`).
- The comment in the watch loop says every path that starts a gap overwrites the start of the gap; a
  failed dial does so only when none is set. The gap reported is right because of it
  (`WatchLoop.GapIsSinceTheDrop`).
- A documented table round trips without any condition on rows made of dashes: the printed names are
  in backquotes, so no row can be mistaken for the rule (`DocTable.FieldCellStands`).

## Model

| member | source | states |
|---|---|---|
| PveFirewall.Client.Do | internal/pvemock/firewall.go:259-424 | a refused call changes nothing, an accepted one has its effect, and a call reported as failed may have landed |
| PveFirewall.ReplaceKeepsOthers | internal/pvemock/firewall.go:540-564 | changing one object leaves every other object, and every name's place, as it was |
| PveFirewall.RemoveKeepsOthers | internal/pvemock/firewall.go:566-591 | deleting an object leaves exactly the names of the others |
| PveFirewall.RemoveKeepsBodies | internal/pvemock/firewall.go:566-591 | and what each of them is |
| PveFirewall.RemoveTakesOne | internal/pvemock/firewall.go:566-591 | of distinct objects it takes out that one, and the rest keep their order |
| PveFirewall.ApplyKeepsNames | internal/pvemock/firewall.go:516-923 | no accepted call ever gives a scope two objects of one name |
| FwRestore.Capture | cmd/vnproxd/changeagent.go:1432-1476 | a capture that succeeds is the whole gated scope, rules in order, ipsets and groups with their members |
| FwRestore.CaptureIpsets | cmd/vnproxd/changeagent.go:1450-1460 | one listing per set, each under its own name, none missing |
| FwRestore.CaptureGroups | cmd/vnproxd/changeagent.go:1462-1474 | one rule listing per group, each under its own name, none missing |
| FwRestore.RestoreRules | cmd/vnproxd/changeagent.go:1500-1514 | success leaves exactly the wanted rules in order; a failure at any call leaves a prefix of the live or of the wanted rules |
| FwRestore.RestoreOptions | cmd/vnproxd/changeagent.go:1516-1546 | captured non-empty options win, everything else keeps its live value, and nothing is half written |
| FwRestore.RestoreAliases | cmd/vnproxd/changeagent.go:1552-1565 | success leaves exactly the wanted aliases; nothing else of the scope changes |
| FwRestore.RestoreIpsets | cmd/vnproxd/changeagent.go:1567-1585 | success leaves exactly the wanted sets with their entries in order; nothing else changes |
| FwRestore.RestoreGroups | cmd/vnproxd/changeagent.go:1590-1608 | success leaves exactly the wanted groups with their rules in order; nothing else changes |
| FwRestore.Reconcile | cmd/vnproxd/changeagent.go:1500-1610 | success is the restored scope, and whatever call fails, what is left still restores to the same scope |
| FwRestore.RetriesConverge | cmd/vnproxd/changeagent.go:1484-1610 | after any number of attempts failing anywhere, one that completes leaves what one uninterrupted restore of the first scope leaves |
| FwRestore.GoalIsFixed | cmd/vnproxd/changeagent.go:1500-1610 | no attempt, complete or not, changes what a complete restore would end in |
| FwRestore.DependsOnlyOnKept | cmd/vnproxd/changeagent.go:1088-1101 | two live scopes restore alike if and only if they agree on the values the restore leaves alone |
| FwRestore.CaptureThenRestore | cmd/vnproxd/changeagent.go:1415-1546 | capture, then anything, then restore: rules and switch are back, every captured non-empty policy and log level is (the in/out policies everywhere but at a vnet, where they keep their live values), aliases and ipsets at cluster and guest scope, groups at cluster scope; and the scope is the captured one exactly when the values left alone are |
| FwRestore.RestoredMeans | cmd/vnproxd/changeagent.go:1088-1101 | what a restore brings back at each kind of scope, option by option and collection by collection, and what keeps its live value |
| FwRestore.CapturedMeans | cmd/vnproxd/changeagent.go:1432-1476 | what a capture takes at each kind of scope |
| FwRestore.UnsetPolicyIsNotRestored | cmd/vnproxd/changeagent.go:1518-1546 | a live DROP survives the restore of a scope captured before any policy was set |
| FwScope.GatesMatchTheScope | cmd/vnproxd/changeagent.go:1033-1101 | for every reference the resolver accepts: groups at the cluster, aliases and ipsets at the cluster and guests, in/out policies everywhere but at a vnet, judged by the scope the calls go to |
| FwScope.PlainReferences | cmd/vnproxd/changeagent.go:1035-1038 | "cluster" and "node" resolve to the cluster and to the reference's node |
| FwScope.AcceptedReferences | cmd/vnproxd/changeagent.go:1033-1059 | a reference resolves if and only if it is one of those two, names a vnet with its zone, or a guest with its kind and a number |
| FwScope.VnetReference | cmd/vnproxd/changeagent.go:1039-1047 | every vnet reference resolves to its vnet, whatever its name contains |
| FwScope.GuestReference | cmd/vnproxd/changeagent.go:1048-1057 | every guest reference resolves to its node, kind and number |
| FwScope.SplitJoined | cmd/vnproxd/changeagent.go:1040-1050 | splitting in three undoes joining when the first two parts hold no separator |
| FwScope.AtoiOfDecimal | cmd/vnproxd/changeagent.go:1053-1056 | the number parsed from a decimal numeral is the number written |
| FwScope.AtoiOfSigned | cmd/vnproxd/changeagent.go:1053-1056 | with a sign too, and a number outside 64 bits is refused |
| FwScope.AtoiRefuses | cmd/vnproxd/changeagent.go:1053-1056 | nothing, a sign alone, or any other character where a digit should be is refused |
| FwScope.SnapshotFirewallScope | cmd/vnproxd/changeagent.go:1415-1430 | succeeds only on a reference that resolves, with the capture of that scope, field by field |
| FwScope.RestoreFirewallScope | cmd/vnproxd/changeagent.go:1484-1498 | an unresolvable reference issues no call; success leaves rules, policies and objects as the kind of scope says, and every other outcome keeps the restore's contract |
| FwEdits.CreateFwRule | cmd/vnproxd/changeagent.go:1186-1212 | success inserts the rule at the position asked for, clamped, and a failure leaves one of the three ruleset states on the way |
| FwEdits.MoveFwRule | cmd/vnproxd/changeagent.go:1267-1277 | success is the move, a failure the move or nothing |
| FwEdits.MoveKeepsTheOthers | internal/pvemock/firewall.go:368-392 | the moved rule lands at the clamped position, every other rule keeps its order, none is lost or invented |
| FwEdits.MoveBack | internal/pvemock/firewall.go:368-392 | moving a rule back undoes the move |
| FwEdits.DeleteUndoesCreate | cmd/vnproxd/changeagent.go:1186-1212 | deleting the inserted rule gives the old ruleset back |
| FwEdits.ClearGroup | cmd/vnproxd/changeagent.go:1375-1383 | deleting highest position first empties the group, and a failure leaves a prefix of it |
| FwEdits.UpdateFwGroup | cmd/vnproxd/changeagent.go:1371-1390 | success leaves exactly the wanted rules, each field that of its spec, without interface and log level; a failure leaves a prefix of the old or of the new rules |
| FwEdits.ReplacementResumes | cmd/vnproxd/changeagent.go:1371-1390 | running an interrupted replacement again ends where it would have ended |
| FwIpsets.RemoveUnwanted | cmd/vnproxd/changeagent.go:1333-1340 | for every iteration order, exactly the entries not wanted are deleted, once each; a failure leaves the set without some of them and otherwise as it was |
| FwIpsets.AddMissing | cmd/vnproxd/changeagent.go:1341-1348 | for every iteration order, exactly the missing entries are created, once each; a failure leaves the set with those that landed |
| FwIpsets.SetMembership | cmd/vnproxd/changeagent.go:1321-1350 | the writes issued are the symmetric difference and nothing else, in every outcome, and a failure leaves the set part-way |
| FwIpsets.MembershipIsExact | cmd/vnproxd/changeagent.go:1321-1350 | the set ends with exactly the wanted CIDRs, and entries wanted before are the entries that were there |
| FwIpsets.OneWritePerDifference | cmd/vnproxd/changeagent.go:1321-1350 | the number of writes is the size of the symmetric difference |
| FwIpsets.UpdateFwIpset | cmd/vnproxd/changeagent.go:1312-1350 | in every outcome the calls are the comment's and one per entry of the symmetric difference reached; a missing set is refused untouched; success leaves exactly the wanted set; a failure leaves the set part-way and nothing else of the scope changed |
| FwIpsets.PartsJoin | cmd/vnproxd/changeagent.go:1333-1348 | an attempt that starts part-way and stops again is still part-way from where the first one began |
| FwIpsets.UpdatesConverge | cmd/vnproxd/changeagent.go:1312-1350 | after any number of updates that failed at any call, one that completes leaves exactly the wanted CIDRs and comment, the entries wanted before as they were, and nothing else changed |
| HostAgent.HostNodeAgent.StageInterfaces | cmd/vnproxd/changeagent.go:147-154 | one step of the agent: stages, and touches nothing else |
| HostAgent.HostNodeAgent.ReloadInterfaces | cmd/vnproxd/changeagent.go:156-186 | one step of the agent, for every outcome of every read, write and reload in it |
| HostAgent.HostNodeAgent.DiscardStaged | cmd/vnproxd/changeagent.go:188-195 | one step of the agent; discarding nothing succeeds |
| HostAgent.HostNodeAgent.RestoreInterfaces | cmd/vnproxd/changeagent.go:205-213 | stage then reload; a failed stage reloads nothing |
| HostAgent.HostNodeAgent.ReadInterfaces | cmd/vnproxd/changeagent.go:137-145 | the committed file, unless the read fails |
| HostAgent.StagedIsLast | cmd/vnproxd/changeagent.go:147-195 | while writes succeed, over every interleaving the staged file is the last content staged, or the one on disk at the start |
| HostAgent.RunKeeps | cmd/vnproxd/changeagent.go:137-213 | while writes succeed, over every interleaving a kernel whose state is known runs the committed file |
| HostAgent.CommittedWasStaged | cmd/vnproxd/changeagent.go:147-213 | while writes succeed, between any two steps the committed file is the initial content, the content staged at the start, or a content some earlier step staged |
| HostAgent.FailedReloadKeepsTheFile | cmd/vnproxd/changeagent.go:156-186 | while writes succeed, a failed reload leaves the committed and the staged file as they were |
| HostAgent.ReloadContract | cmd/vnproxd/changeagent.go:156-186 | a failed reload leaves file and running state as they were if and only if it never reached the file or the second reload succeeded |
| HostAgent.SecondReloadFails | cmd/vnproxd/changeagent.go:156-186 | the input for which it does not: both reloads fail |
| HostAgent.ReloadSucceedsIff | cmd/vnproxd/changeagent.go:161-195 | in every interleaving a reload succeeds if and only if a file is pending and its calls work |
| HostAgent.SuccessfulReloadCommits | cmd/vnproxd/changeagent.go:156-186 | a reload that succeeds commits the staged file, the kernel runs it, and it is no longer staged unless its removal failed |
| HostAgent.StageMeans | cmd/vnproxd/changeagent.go:147-154 | staging puts the content in the pending file, or reports that it did not |
| HostAgent.DiscardMeans | cmd/vnproxd/changeagent.go:188-195 | discarding leaves nothing staged, or reports that the file is still there |
| HostAgent.PendingMeans | cmd/vnproxd/changeagent.go:161-195 | a file is pending exactly when every step that took one away was followed by a Stage |
| HostAgent.RestoreReportsIff | cmd/vnproxd/changeagent.go:196-213 | among any other callers a restore reports success if and only if its own staging write succeeds, its reload's calls work and nobody took the staged file away for good in between |
| HostAgent.RestoreAloneReports | cmd/vnproxd/changeagent.go:205-213 | with no other caller in between that is what the method returns |
| HostAgent.RestoreAmongOthers | cmd/vnproxd/changeagent.go:196-213 | while writes in between succeed, a successful restore commits the last content staged before its reload: its own unless a later Stage, the last in between, carried other content |
| HostAgent.RestoreIsNotAtomic | cmd/vnproxd/changeagent.go:196-213 | the inputs: one Stage in between and success commits the other content; one Reload in between and success is reported as failure |
| Snapshots.SnapshotNodeList | cmd/vnproxctl/snapshots.go:194-204 | the nodes in first-seen order |
| Snapshots.FirstSeenMembers | cmd/vnproxctl/snapshots.go:194-204 | exactly the snapshot's nodes are listed |
| Snapshots.FirstSeenOrder | cmd/vnproxctl/snapshots.go:194-204 | each is listed once, in the order of its first entry |
| Snapshots.SnapshotContentForNode | cmd/vnproxctl/snapshots.go:283-323 | the pick, each error case, and the other nodes, reported only on success |
| Snapshots.PickIsLastOfNode | cmd/vnproxctl/snapshots.go:283-323 | the content is that of the node's last entry, never of another node |
| Snapshots.PickMeans | cmd/vnproxctl/snapshots.go:283-323 | which content, in the entry or in the blob it names, and which of the three errors, for every snapshot |
| Snapshots.OtherNodesAre | cmd/vnproxctl/snapshots.go:283-323 | the other nodes reported are those of the entries of any other node |
| Snapshots.CliHost.RestoreLocalInterfaces | cmd/vnproxctl/snapshots.go:333-355 | backup, swap, reload and un-write, for every outcome of every call |
| Snapshots.CliAndAgentAgree | cmd/vnproxctl/snapshots.go:333-355 | for every content and every outcome of writes and reloads the command line and the agent leave the same file and kernel and report the same; the backup of the attempt holds the file it found |
| Snapshots.BackupIsOfItsLastUse | cmd/vnproxctl/snapshots.go:333-355 | over any run of attempts a backup holds the file as the last attempt of its name found it, or what it held before when none used the name |
| Snapshots.ContentSurvivesIff | cmd/vnproxctl/snapshots.go:333-355 | over any run of attempts a content is in some backup if and only if an attempt found it and no later attempt used its backup's name, or an older backup of an unused name holds it |
| Snapshots.SecondBackupReplacesTheFirst | cmd/vnproxctl/snapshots.go:338-341 | the input: two restores in one second, after which the content first found is in no backup |
| RollbackNow.PreSnapshotFor | cmd/vnproxctl/rollback.go:151-162 | the first pre-apply snapshot in listing order |
| RollbackNow.RollbackCommand.RunRollbackNow | cmd/vnproxctl/rollback.go:39-147 | one attempt, for every outcome of every call: files, kernel, backup, row and exit code |
| RollbackNow.StatusChanges | cmd/vnproxctl/rollback.go:78-123 | the row changes only from awaiting_confirm to rolled_back or applying to failed, only after a successful restore of the pre-apply content, and loses its deadline |
| RollbackNow.SuccessMeansDone | cmd/vnproxctl/rollback.go:78-147 | exit code 0 means the row is terminal and the pre-apply content is live |
| RollbackNow.CleanAttemptEnds | cmd/vnproxctl/rollback.go:78-147 | a clean attempt on an applying or awaiting_confirm changeset restores what the last entry of the node in the first pre-apply snapshot holds and ends the changeset, failed or rolled back |
| RollbackNow.OtherStatusesRefused | cmd/vnproxctl/rollback.go:78-87 | in any other status it is refused untouched |
| RollbackNow.TerminalIsFinal | cmd/vnproxctl/rollback.go:78-87 | once the row is out of flight no run of attempts changes anything |
| RollbackNow.RunOutcome | cmd/vnproxctl/rollback.go:39-147 | after any run on any nodes, either the row is untouched or one attempt took its one step and that attempt's content is live |
| RollbackNow.RetryConverges | cmd/vnproxctl/rollback.go:94-126 | after any failures of attempts that named this node or none, a clean retry leaves what a clean first attempt leaves |
| RollbackNow.CleanAttemptAfterAny | cmd/vnproxctl/rollback.go:78-126 | after attempts on any nodes, a clean attempt leaves its node's content if and only if the row was still in flight or the finishing node's content is the same |
| RollbackNow.SecondNodeIsRefused | cmd/vnproxctl/rollback.go:78-126 | the input: after a clean attempt on one node, one on another is refused with the first one's content live |
| RollbackNow.AtMostOneChange | cmd/vnproxctl/rollback.go:78-126 | over a run the row changes at most once |
| RunGroup.ReceiveLoop | cmd/vnproxd/rungroup.go:48-55 | the loop keeps the first non-nil error and cancels from the first result on |
| RunGroup.FirstErrorIsFirst | cmd/vnproxd/rungroup.go:48-55 | it is nil exactly when all are nil, and otherwise the earliest non-nil one |
| RunGroup.StepInv | cmd/vnproxd/rungroup.go:36-56 | every step of every goroutine keeps the accounting: received and buffered results are the senders' results in order |
| RunGroup.SendNeverBlocks | cmd/vnproxd/rungroup.go:40-46 | in every interleaving an actor that has returned can send |
| RunGroup.ReturnMeansAllReturned | cmd/vnproxd/rungroup.go:48-56 | run returns only after all have sent, nil exactly when all sent nil, otherwise the first error in the order of receipt |
| RunGroup.RunReturnsFirstError | cmd/vnproxd/rungroup.go:40-56 | in terms of what the actors' functions returned: each returns once and sends once, run() is nil if and only if all of them returned nil, and otherwise the error of the first to send one |
| RunGroup.StepTraces | cmd/vnproxd/rungroup.go:40-46 | at every step what an actor is about to send, or has sent, is what its function returned |
| RunGroup.CancelledOnceProcessed | cmd/vnproxd/rungroup.go:48-55 | the group's own cancel holds from the first processed result on, and not before |
| RunGroup.StepDecreases | cmd/vnproxd/rungroup.go:36-56 | every step of the group uses up some of a measure |
| RunGroup.RunsAreBounded | cmd/vnproxd/rungroup.go:36-56 | no interleaving of n actors takes more than 5n + 3 steps |
| RunGroup.RestsOnlyUndisturbed | cmd/vnproxd/rungroup.go:36-56 | the group waits only for actors still running, and uncancelled only while all of them run |
| RunGroup.CancelledGroupReturns | cmd/vnproxd/rungroup.go:31-56 | when every actor returns once the group or the parent cancels, the group comes to rest only by returning, or with nothing cancelled and every actor running |
| QosKernel.RenderInstalls | internal/qos/shape.go:100-182 | the lines of a valid shape run through and put it in force: a class with its rate, ceiling and priority, a filter when there is an address or a VLAN to match, the bridge's default otherwise |
| QosKernel.RenderTC | internal/qos/shape.go:100-110 | a shape is valid if and only if it has a bridge, a positive rate and no ceiling below it |
| QosKernel.TeardownPrefix | internal/qos/shape.go:184-195 | which first lines of a teardown can take effect, and what they leave |
| QosKernel.TeardownRuns | internal/qos/shape.go:184-195 | what a whole teardown leaves when tc never fails, including when its first line has nothing to delete |
| QosKernel.TeardownHitsTheBridge | internal/qos/shape.go:184-195 | a teardown takes another shape out of force if and only if both have selectors and share the bridge |
| QosKernel.TeardownTakesTheNeighbour | internal/qos/shape.go:184-195 | the input: of two selector shapes on one bridge, tearing one down takes the other out of force |
| QosHost.QosGateway.Exec | cmd/vnproxd/qos.go:82-89 | in every outcome some first lines took effect, in order, and success means all of them did |
| QosHost.QosGateway.TearDownShape | cmd/vnproxd/qos.go:224-226 | the attempt is logged with the number of lines that took effect, which is all that can when tc never fails |
| QosHost.QosGateway.UpdateShape | cmd/vnproxd/qos.go:134-177 | the log is the teardown, the rendering and the write, as far as they got, and accounts for row and kernel in every outcome; on success every field given has its value in the stored row and every other keeps its own, and the kernel has the row's class and selector; a peer's node is refused |
| QosHost.QosGateway.DeleteShape | cmd/vnproxd/qos.go:179-188 | the log is the teardown and then the row's deletion, and only that row can go |
| QosHost.QosGateway.SnapshotQos | cmd/vnproxd/qos.go:191-198 | exactly the node's rows, each once |
| QosHost.QosGateway.DropOthers | cmd/vnproxd/qos.go:220-230 | the log is one teardown and one deletion per shape dropped, in listing order, as far as it got; kernel and rows are what it says, for every outcome of every line |
| QosHost.QosGateway.ApplyWanted | cmd/vnproxd/qos.go:231-248 | the log is one rendering and one write per wanted shape, in order, as far as it got; kernel and rows are what it says |
| QosHost.QosGateway.RestoreQos | cmd/vnproxd/qos.go:204-250 | in every outcome the log says which drops and puts were tried and how far each teardown got, and accounts for rows and kernel; success restores the rows, and every outcome can be resumed to the same rows |
| Qos.DropLogDoes | cmd/vnproxd/qos.go:220-230 | what a log of drops leaves: rows gone whatever came of the teardowns, kernel torn down as far as they got |
| Qos.PutLogDoes | cmd/vnproxd/qos.go:231-248 | what a log of puts leaves in rows and kernel |
| Qos.UpdatedMeans | internal/store/qos.go:120-131 | an update writes every field but the node and the creation fields |
| Qos.PutAllAt | internal/store/qos.go:61-131 | what a series of inserts and updates leaves in each row |
| Qos.PutAgain | internal/store/qos.go:120-131 | repeating an interrupted series changes nothing |
| QosRestore.SnapshotComesBack | cmd/vnproxd/qos.go:191-250 | from any later store every captured row is back with its rendering; the node's ids are exactly the snapshot's if and only if none is alive on another node; a row is the captured one if and only if none of another origin is alive; a row of another node changes if and only if it has a captured id and reads differently |
| QosRestore.OtherOriginStays | cmd/vnproxd/qos.go:231-248 | the input: a shape deleted and created again by someone else keeps the other's name |
| QosRestore.EveryShapeInForce | cmd/vnproxd/qos.go:231-248 | a restored shape is in force if and only if it has a selector or no later shape is on its bridge |
| QosRestore.LaterShapeTakesTheDefault | cmd/vnproxd/qos.go:231-248 | the input: a whole-bridge shape and any later shape on its bridge |
| QosRestore.TornDownAllLeaves | cmd/vnproxd/qos.go:220-230 | which classes and filters a series of teardowns leaves, for every outcome of every one of them |
| QosRestore.LeftoversDecide | cmd/vnproxd/qos.go:204-250 | from any kernel and for every outcome, classes, filters, defaults and every shape are as the snapshot says if and only if nothing old is left over and whole-bridge shapes come last on their bridges |
| QosRestore.KernelEqualsStoreIff | cmd/vnproxd/qos.go:204-250 | from a kernel in step, for every outcome of every teardown: in step with the snapshot if and only if every teardown ran to its end, survivors keep bridge and selector, whole-bridge shapes come last, and none is dropped from a bridge left empty |
| QosRestore.WorkingTearsRan | cmd/vnproxd/qos.go:220-230 | with working tc every teardown runs to its end if and only if no two dropped selector shapes share a bridge |
| QosRestore.WorkingKernelIff | cmd/vnproxd/qos.go:204-250 | the same if-and-only-if with working tc, in terms of the shapes alone |
| QosRestore.DropsThatLeak | cmd/vnproxd/qos.go:220-230 | the input: two selector shapes dropped from one bridge |
| QosRestore.DroppedDefaultStays | cmd/vnproxd/qos.go:220-230 | the input: a whole-bridge shape dropped from a bridge that then has none |
| QosRestore.RetryConvergesIff | cmd/vnproxd/qos.go:204-250 | a retry of a completed restore ends in step if and only if the completed one did, on the same condition |
| QosRestore.OrphanForEver | cmd/vnproxd/qos.go:204-250 | over any number of attempts failing anywhere, a class whose row is gone and whose shape is not wanted is never removed |
| QosRestore.FailedTeardownIsForEver | cmd/vnproxd/qos.go:220-230 | the input: one teardown stopped part-way; restore and retries end in step if and only if it ran to its end |
| QosRuns.LogLeaves | cmd/vnproxd/qos.go:204-250 | outside what the snapshot wants, a restore's log leaves of the kernel what no teardown in it took away, for every outcome |
| QosRuns.RunEndsInStepIff | cmd/vnproxd/qos.go:204-250 | over any number of restores interrupted anywhere, the last of which completes: in step with the snapshot if and only if every class and filter there was is wanted or was taken by some attempt's teardown, whole-bridge shapes come last, and no default is left on an empty bridge |
| QosUpdate.UpdateLogDoes | cmd/vnproxd/qos.go:134-177 | the kernel the conditions below speak of is the one an update's log leaves |
| QosUpdate.UpdateInStepIff | cmd/vnproxd/qos.go:134-177 | for every outcome of the teardown, the exact condition for an update to keep the kernel in step with the rows |
| QosUpdate.WorkingUpdateIff | cmd/vnproxd/qos.go:139-147 | with working tc, in step if and only if a selector shape has no selector neighbour on its bridge, no other whole-bridge shape is on the new bridge, and a whole-bridge shape stays on its bridge |
| QosUpdate.RateUpdateTakesTheNeighbour | cmd/vnproxd/qos.go:139-147 | the input: a rate-only update of one of two selector shapes on a bridge takes the other's filter away |
| QosUpdate.DeleteInStepIff | cmd/vnproxd/qos.go:179-188 | for every outcome of the teardown, the exact condition for a deletion to keep the kernel in step with the rows |
| QosUpdate.WorkingDeleteIff | cmd/vnproxd/qos.go:179-188 | with working tc, in step if and only if the shape has a selector and no selector neighbour on its bridge |
| AutoCapture.Compact | cmd/vnproxd/autocapture.go:256-266 | in-place compaction is the filter by the cutoff, order kept |
| AutoCapture.AutoCaptureTracker.PruneFired | cmd/vnproxd/autocapture.go:256-266 | the pruned list is the whole start history filtered by the last cutoff |
| AutoCapture.AutoCaptureTracker.BudgetAvailable | cmd/vnproxd/autocapture.go:239-244 | room exactly when fewer starts than the cap are in the trailing window |
| AutoCapture.AutoCaptureTracker.RecordStart | cmd/vnproxd/autocapture.go:247-252 | one more start in the history, the cap still kept although the clock was read again |
| AutoCapture.AutoCaptureTracker.Arm | cmd/vnproxd/autocapture.go:185-233 | a capture is started if and only if there is a baseline and a coordinator, an anomaly behind the finding, room in the window at the check, and the coordinator starts; skipped, suppressed and failed each have their own if-and-only-if; only a start is recorded |
| AutoCapture.SinceCounts | cmd/vnproxd/autocapture.go:239-244 | the window of a check holds as many starts as there are times at or after its cutoff |
| AutoCapture.NewlyAppearedAre | cmd/vnproxd/autocapture.go:162-169 | the findings tried are the baseline findings the cycle before did not have |
| AutoCapture.AutoCaptureTracker.Observe | cmd/vnproxd/autocapture.go:153-178 | every newly appeared baseline finding, and no other, is tried in order, each decided by the starts there had been and the time of its own check |
| AutoCapture.SpreadBoundsEverySpan | cmd/vnproxd/autocapture.go:235-252 | no closed span as long as the window holds more starts than the cap |
| AutoCapture.BoundedSpansAreSpread | cmd/vnproxd/autocapture.go:235-252 | the invariant kept is no stronger than that promise |
| AutoCapture.StartKeepsSpread | cmd/vnproxd/autocapture.go:235-252 | a check at an earlier reading of the clock is enough for a start at a later one |
| FindingsGuard.AttributableToNodes | cmd/vnproxd/autorollback.go:162-169 | true exactly when the finding names one of the nodes, directly or through a reference |
| FindingsGuard.Guard.Observe | cmd/vnproxd/autorollback.go:80-102 | the first-seen map has exactly the cycle's ids, each with the time its current run began |
| FindingsGuard.RunStartIsTheBeginning | cmd/vnproxd/autorollback.go:80-102 | that time is the time of the cycle where the unbroken presence begins |
| FindingsGuard.EveryRunBegins | cmd/vnproxd/autorollback.go:80-102 | there is such a cycle for every id present |
| FindingsGuard.ReturningIsNew | cmd/vnproxd/autorollback.go:80-102 | a finding that clears and comes back is new |
| FindingsGuard.OldFindingsStayOld | cmd/vnproxd/autorollback.go:80-102 | one that keeps firing is never new again, however many cycles pass |
| FindingsGuard.NewErrorIdsMean | cmd/vnproxd/autorollback.go:136-155 | the ids a verdict lists are those of exactly the new errors |
| FindingsGuard.Guard.CheckCanary | cmd/vnproxd/autorollback.go:121-158 | clean if and only if a cycle completed since and no attributable error's run began since; otherwise exactly the ids of those, in the order of the cycle |
| WatchLoop.ParseKindFilter | cmd/vnproxctl/watchcmd.go:197-213 | the set of the names listed, or no filter exactly when none is |
| WatchLoop.Watch | cmd/vnproxctl/watchcmd.go:232-340 | the nested loops are the reply-by-reply state machine, over every script of replies |
| WatchLoop.ReadEvents | cmd/vnproxctl/watchcmd.go:310-338 | the reading loop is the state machine's reading mode |
| WatchLoop.Connect | cmd/vnproxctl/watchcmd.go:251-308 | dial, wait and subscribe are the state machine's other modes |
| WatchLoop.ReportIsSound | cmd/vnproxctl/watchcmd.go:232-340 | after any replies every line fits the ones before, no more than the asked-for events are rendered, and the loop has returned exactly when stopped or done |
| WatchScript.WatchTellsAll | cmd/vnproxctl/watchcmd.go:232-340 | from the script of replies alone: the names rendered are, in order and with multiplicity, those of the well-formed allowed events read while the stream was up, up to the number asked for; every dial, failed try, drop and cancellation has its line and nothing else has; the loop has returned if and only if it was cancelled or has shown as many as asked for |
| WatchScript.ToldAre | cmd/vnproxctl/watchcmd.go:232-340 | which replies have a line: exactly those, before the number asked for is reached |
| WatchScript.ToldInOrder | cmd/vnproxctl/watchcmd.go:232-340 | each once and in the order of the replies |
| WatchScript.OneEventShown | cmd/vnproxctl/watchcmd.go:328-336 | the input: a connection, one allowed event and one asked for |
| WatchLoop.ConnectedOnce | cmd/vnproxctl/watchcmd.go:278-287 | "connected" at most once, and never after the stream was up |
| WatchLoop.FirstUpIsConnected | cmd/vnproxctl/watchcmd.go:278-287 | every "reconnected" comes after a "connected" |
| WatchLoop.LossBetweenUps | cmd/vnproxctl/watchcmd.go:278-320 | between two up reports at least one loss is reported |
| WatchLoop.GapIsSinceTheDrop | cmd/vnproxctl/watchcmd.go:236-320 | the gap given is the time since the one drop that ended the previous connection, however many dials failed in between |
| WatchLoop.DoubleUp | cmd/vnproxctl/watchcmd.go:351-359 | the doubling loop is the doubled floor, capped |
| WatchLoop.BackoffDoubles | cmd/vnproxctl/watchcmd.go:346-360 | half a second at first, then doubled with every try up to fifteen seconds |
| WatchLoop.WatchBackoff | cmd/vnproxctl/watchcmd.go:351-365 | the delay is at least half the base and less than the base |
| ApplyPoll.Poll | cmd/vnproxctl/applycmd.go:232-272 | against any daemon and clock the requests are those of whole rounds up to the first that ends the poll |
| ApplyPoll.RoundMeans | cmd/vnproxctl/applycmd.go:198-270 | for every answer of the daemon, whether the round ends the poll and with which exit code: 0, 1, 5 or 6 |
| ApplyPoll.ChecksFollow | cmd/vnproxctl/applycmd.go:267-270 | the deadline checks of two rounds are a poll interval and a round apart |
| ApplyPoll.GetsAreBounded | cmd/vnproxctl/applycmd.go:232-272 | at most ceil(timeout / 2s) + 1 rounds |
| ApplyPoll.OneGetPerRound | cmd/vnproxctl/applycmd.go:232-272 | each with exactly one GET |
| ApplyPoll.ConfirmsFollowAwaiting | cmd/vnproxctl/applycmd.go:247-262 | a confirm is sent right after a GET that showed awaiting_confirm, and after every one |
| ApplyPoll.SuccessIsAnObservedCommit | cmd/vnproxctl/applycmd.go:213-222 | success exit if and only if the last request is a GET that itself showed committed |
| ApplyPoll.TimeoutIsPastTheDeadline | cmd/vnproxctl/applycmd.go:213-222 | a timeout exit only past the deadline, and never in a round whose GET showed a terminal status |
| ApplyPoll.TimedOutYetCommitted | cmd/vnproxctl/applycmd.go:251-269 | the timed-out result is committed if and only if the last request is a confirm answered committed, at or past the deadline |
| ApplyPoll.CommittedReportedAsTimeout | cmd/vnproxctl/applycmd.go:213-222 | the input: a confirm that commits at the deadline exits with the timeout code |
| DocTable.SplitCLIJSONRow | cmd/vnproxctl/jsondoc.go:331-356 | the split at unescaped pipes, for every line |
| DocTable.ParseCLIJSONDocTable | cmd/vnproxctl/jsondoc.go:192-252 | the parse of every text, with every error case and the lines its message names |
| DocTable.MarkersInRange | cmd/vnproxctl/jsondoc.go:195-211 | the markers found are the only ones there |
| DocTable.RepeatsAreNamed | cmd/vnproxctl/jsondoc.go:195-211 | the search fails if and only if a marker is on two lines, and the error names the two lines of the first repetition |
| DocLines.DocumentMeans | cmd/vnproxctl/jsondoc.go:213-251 | of a document with its two markers: a backward block, no line of a table, a first one that does not name the columns, or a later one with other than three cells is refused, in exactly those cases and naming the line; any other document gives its rows in order |
| DocLines.ReadingMeans | cmd/vnproxctl/jsondoc.go:217-251 | the same for what lies between any two lines |
| DocLines.RepeatFails | cmd/vnproxctl/jsondoc.go:195-208 | a document with a repeated marker is refused, before anything else |
| DocLines.NoBlockFails | cmd/vnproxctl/jsondoc.go:210-212 | a document without one of its markers is refused, in exactly that case |
| DocLines.JudgeMeans | cmd/vnproxctl/jsondoc.go:219-241 | a line is of the table when it starts with a pipe, names the columns when its cells are those three, and is a row when it has three |
| DocLines.RowLineMeans | cmd/vnproxctl/jsondoc.go:237-246 | a rule holds dashes, colons and blanks only; a row's cells are its field, its type and its description |
| DocLines.CellsOfAnyLine | cmd/vnproxctl/jsondoc.go:331-356 | the cells of any row, however it is escaped, are the ones written |
| DocLines.EveryStringIsWritten | cmd/vnproxctl/jsondoc.go:331-356 | and every string is written in such a way |
| DocTable.SplitOfPrinted | cmd/vnproxctl/jsondoc.go:331-356 | a printed row splits into its cells if and only if they are trimmed, whatever pipes and backslashes they hold |
| DocTable.NameSurvives | cmd/vnproxctl/jsondoc.go:242-244 | a backquoted name comes back with its optional mark if and only if it has no leading backtick and, unless optional, no trailing backtick or question mark |
| DocTable.SeparatorCells | cmd/vnproxctl/jsondoc.go:358-365 | a row is a rule exactly when it holds dashes, colons and blanks only |
| DocTable.FieldCellStands | cmd/vnproxctl/jsondoc.go:358-369 | a printed field cell is never taken for part of a rule |
| DocTable.PrintedRow | cmd/vnproxctl/jsondoc.go:226-246 | a printed row reads as the row |
| DocTable.HeaderPrinted | cmd/vnproxctl/jsondoc.go:226-236 | the printed column names read as the header |
| DocTable.RulePrinted | cmd/vnproxctl/jsondoc.go:237-239 | a printed rule reads as one |
| DocTable.ParseOfTable | cmd/vnproxctl/jsondoc.go:192-252 | lines that read as rows, between markers in any marker-free text, parse to those rows |
| DocTable.ParseOfPrinted | cmd/vnproxctl/jsondoc.go:192-252 | printing a table into any marker-free text and parsing gives the same rows with their lines |
| DocTable.ParseOfPrintedText | cmd/vnproxctl/jsondoc.go:192-252 | the same starting from the text |
| Text.LinesOfJoined | cmd/vnproxctl/jsondoc.go:194-194 | splitting a text into lines undoes joining them |
| Text.SplitMeans | cmd/vnproxctl/watchcmd.go:203-208 | the parts of a list hold no separator, and joined by it they are the list |
| DocCompare.ArrayOf | cmd/vnproxctl/jsondoc.go:133-159 | "array of t" if and only if not empty and every element has type t |
| DocCompare.TypeNames | cmd/vnproxctl/jsondoc.go:133-160 | the name of every kind of value, and when an array is only an "array" |
| DocCompare.CompatibleIff | cmd/vnproxctl/jsondoc.go:175-182 | null suits every documented type, "array" suits every "array of" anything, and nothing else suits but the same type |
| DocCompare.JsonShape | cmd/vnproxctl/jsondoc.go:88-125 | succeeds exactly on objects and arrays of objects, with every observed field once, in name order |
| DocCompare.ListedOnce | cmd/vnproxctl/jsondoc.go:101-125 | there is only one such list: the order maps are walked in cannot be seen |
| DocCompare.UnionIsOfTheCarried | cmd/vnproxctl/jsondoc.go:96-107 | an array's fields are exactly the names some element carries |
| DocCompare.UnionIsByLastCarrier | cmd/vnproxctl/jsondoc.go:96-107 | each with the type it has in the last element that carries it |
| DocCompare.SortedFields | cmd/vnproxctl/jsondoc.go:118-125 | whatever order the map is walked in, the list is the sorted one |
| DocCompare.FindDuplicates | cmd/vnproxctl/jsondoc.go:262-269 | a problem per repeated name, none exactly when names are distinct, and the first row of a name kept |
| DocCompare.CompareCLIJSONDoc | cmd/vnproxctl/jsondoc.go:258-299 | silent if and only if names are distinct, every observed field has a compatible described row, and every required row an observed field |
| DocCompare.ProblemsMean | cmd/vnproxctl/jsondoc.go:258-299 | the problems reported are exactly those there are, each with its field, lines and types |
| FlowScan.FetchPage | internal/store/flows.go:136-241 | from a scan's cursor a page is the next rows of the filtered list, with a cursor exactly when more remain |
| FlowScan.ToRecord | cmd/vnproxd/baseline.go:266-281 | a record has its row's time, source, destination and other columns |
| FlowScan.WindowMembers | internal/store/flows.go:136-194 | the rows scanned are exactly those from the start on, and every row when there is no start |
| FlowScan.PastRow | internal/store/flows.go:185-194 | what lies past a row's cursor is what follows the row |
| FlowScan.NewerRowsChangeNoPage | internal/store/flows.go:185-194 | a page past a cursor of the old rows is the same page however many newer rows there are |
| FlowScan.ScanFlowRecords | cmd/vnproxd/baseline.go:244-261 | while the table gains newer rows between queries, the scan is a prefix of the newest-first list its first query had, to a fixed end |
| FlowScan.ScanIsAPrefix | cmd/vnproxd/baseline.go:244-261 | all of it, or at least the cap and less than a page more |
| FlowScan.GroupRecordsByRef | cmd/vnproxd/baseline.go:286-297 | each reference's bucket is the records that touch it, once each, in order |
| FlowScan.TouchingAre | cmd/vnproxd/baseline.go:286-297 | a reference's bucket holds exactly the records with it as source or destination |
| FlowScan.Gather | cmd/vnproxd/microsegwire.go:210-235 | while the table gains newer rows, the guest's records up to the window's end of the scanned prefix of the first query's list |
| FlowScan.GuestUpToAre | cmd/vnproxd/microsegwire.go:221-229 | the records gathered are those of rows up to the end with the guest at either end |
| FlowScan.BucketIsGather | cmd/vnproxd/microsegwire.go:210-235 | when no cap is hit the learner's bucket of a guest is the planner's gather, order and multiplicity included |
| FlowScan.SharedOnlyAtTheBoundary | cmd/vnproxd/microsegwire.go:78-85 | training and held-out corpora share only records stamped at the boundary second |
| FlowScan.NothingFallsBetween | cmd/vnproxd/microsegwire.go:78-85 | together they hold every record of the span once, and those of the boundary second once more |
| HumanBytes.Format | cmd/vnproxctl/backupcmd.go:274-285 | for every 64-bit count the divisor is a power of 1024 that does not overflow, the whole part is 1 to 1023 and the unit exists |
| HumanBytes.PrintedTenths | cmd/vnproxctl/backupcmd.go:284-284 | of the exact quotient the printed tenth reads 1024.0 if and only if the count is at least 1023.95 of its unit, and 1.0 to 1023.9 otherwise |
| HumanBytes.TenthsAreNearest | cmd/vnproxctl/backupcmd.go:284-284 | the printed tenth is the nearest to the exact quotient, the even one of two as near |
| HumanBytes.ShortOfAMebibyte | cmd/vnproxctl/backupcmd.go:284-284 | the input: 1048575 reads 1024.0 KiB |
| HumanBytes.UnitIsUnique | cmd/vnproxctl/backupcmd.go:274-285 | no other unit fits |

## Left out

- The wire: JSON encoding of snapshots and bodies, HTTP, TLS, flags, tables, colours, logging and audit rows.
- Firewall API semantics come from the repository's own mock of it (`internal/pvemock/firewall.go`); digests, privileges and validation of rule fields are not modelled, and one gateway call runs against one scope with no other writer in between.
- Single-call firewall operations (`updateFwRule`, `updateFwAlias`, `createFwIpset`, `createFwGroup`, plain deletes) and the SDN, DNS and DHCP operations: one call per branch.
- FwRestore.Reconcile: the snapshot's object names are distinct, as in every captured one. That an interrupted QoS restore can be resumed is likewise stated for snapshots with distinct ids.
- Class ids in `tc` lines are a hash of the shape id; a class is named by the shape id itself, so hash collisions are not modelled. What deleting an absent filter or class does (it fails) is taken from the gateway's own warning.
- RollbackNow.RollbackCommand.RunRollbackNow: a failure to write the command's own output, which comes after the row is saved, is not modelled.
- `createShape` of the QoS gateway: render, then insert, without a row to keep in step.
- The network stack: a reload either succeeds with the file on disk or fails and leaves the running state unknown.
- Reads of the stored changeset and snapshot rows succeed with the row or fail; SQL, transactions and blob hashing are not part of this model, and neither is the host name lookup, which is a parameter.
- The run group's actors are known by when they return and with what; what they do with the cancelled context is theirs.
- Time: clocks are integers, the capture tracker's never runs backwards, and the bounds of the micro-segmentation windows (a calendar date) are parameters.
- WatchLoop.WatchBackoff: the jitter is a real number in [0, 1); rounding to whole nanoseconds is not modelled.
- HumanBytes.PrintedTenths: the quotient is exact; the rounding of the 64-bit float division before it is not modelled.
- FlowScan.ScanFlowRecords: between queries the table may gain newer rows; rows stamped in the past that arrive late, and old rows pruned during a scan, are not modelled.
- FlowScan.Gather: likewise.
- The wording of the doc gate's problems; they are values with the field, lines and types the messages carry.
- The anomaly cache and the learner itself (`baseline.go`), the planner and its dry run (`microsegwire.go`), and the automatic rollback that shares the findings stream.
- The HA lease, peer and federation protocols, capture coordination, registry, push and sign-in code.
