# Verification of the cluster manager

A Dafny model of the parts of the cluster manager that carry invariants, with proofs over every input,
every run or every reachable state. `dafny verify dfyconfig.toml` checks the whole project.

The model has seven parts.

- **Log groups** (`LogGroups`, `LogGroupProperties`, `LogAllocator`, `LogMembers`, `LogMemberBuilder`):
  the greedy allocation of log nodes to replica groups, and the numbering of their members that every
  log process and every EloqKV node relies on. The allocator's nested loops are proved against a
  recursive specification; fairness, diversity, partition and agreement are proved about that.
- **Object-store snapshots** (`ManifestKeys`, `CloudRestore`, `CloudRuns`, `CloudTheorems`,
  `CloudDuplicates`, `CloudTasks`): restore and delete as single copy and delete requests on a bucket of
  string keys. Requests may fail, with or without effect, so interrupted runs are states of the model.
  A listing comes in any order; what depends on the order is proved for listings in ascending key order
  (as object stores commonly list them) or for one backup of the timestamp, the rest for every listing.
- **Downloads** (`Download`, `DownloadTheorems`, `DownloadResults`, `DownloadLengths`, `DownloadOutcomes`,
  `DownloadTask`):
  the retry loop over the saved and the partial file against an arbitrary server. An honest server is one
  whose 206 bodies start at the requested offset and whose lengths are right (sections 14.2, 14.4 and
  15.3.7 of RFC 9110); it may still refuse, stall and stop early.
- **Scaling** (`TextLines`, `ClusterConfig`, `ClusterWire`, `ClusterGrammar`, `ClusterParser`, `NodeLists`,
  `NodeListsProgram`, `Topology`, `TopologyTheorems`, `SavedAddresses`, `TopologyTask`): the text of a
  cluster configuration, its parser, the three node lists, the update of the saved topology and its
  validation.
- **Reconciliation** (`YamlDiff`, `YamlDiffProgram`, `DiffFilter`, `Reconcile`, `ReconcileProgram`,
  `ReconcileTheorems`, `ReconcilePaths`, `ReconcileReport`, `ReconcilePromises`, `ReconcileYaml`): the tree
  diff, the planner and what its plan promises.
- **The mutation lock** (`MutationLock`): the lock file as an interleaved protocol.
- **Asset names** (`AssetName`): the printer and the parser of release assets.

`Wrappers`, `Text` and `Sorting` hold what these share: option and result types, the string operations
of the standard library that the code relies on, and a stable sort.

Where the code works step by step the model is a method or a class with the source's loops and fields,
proved against a function; where the code is an expression the model is a function. Hash maps hand out
their keys in an arbitrary order. Integer widths are explicit where they matter: parsing is bounded by
the target type and `raw_port - 10000` wraps on 16 bits, as it does in a build without overflow checks.

Some properties turned out to hold on fewer inputs than one would expect. The exact condition is proved
in each case.

- A restore copies to the highest current term unless that term's digits begin with the backup
  timestamp (`CopyGoesToHighestIff` gives the exact condition); terms 12 and 5 at timestamp 1 are a
  counterexample (`TermTwelveHidesTermFive`).
- A restore of a partition fails when the listing delivers a current manifest whose term is the
  timestamp before any backup of it (`PlanFailsIff`).
- Two listings of a partition with several backups of the timestamp lead to the same bucket exactly when
  these backups have the same content and, unless there is a current manifest, the same term
  (`ListingIsIrrelevantIff`).
- A delete at a timestamp also removes a current manifest whose term equals it
  (`DeleteRemovesTheStamp`).
- A download without a digest saves the right file from every honest server exactly when, for each
  attempt, a HEAD request up to then is answered or every body comes with its length
  (`SafeExactlyIfEnoughIsTold`); otherwise a truncated body can be accepted (`TruncationIsAccepted`).
  Without any length a complete resumed body is refused (`LengthlessResume`).
- A reconcile plan never merges `storage_service`, so planning again is empty exactly when it agreed
  (`ReplanIsEmptyIff`).
- The roles of a group lose nodes when an address repeats (`RolesConserveNodes`).
- After removing nodes, the saved topology is invalid as soon as no group has a second candidate, or none
  has a node that is no candidate (`ScalingValidity`).
- A lock file that was created but not written stays for ever, and it is the only state from which the
  lock cannot be taken again (`AbandonedForever`, `LockIsRecoverableIff`).
- With the stale check and the removal of the lock file apart, two processes can come to hold the lock
  exactly when a live process has taken over the file in between (`RemovalBreaksIff`,
  `SplitRemovalBreaks`).
- The probe does not wait for the leader of a last, partial group (`ProbeExpectsFullGroups`).

The documentation of `group_members` (src/cluster_mgr/src/config/log_service.rs, lines 181 to 187) speaks
of spreading load over all disks of a node; the code uses each node's first data directory only, and the
model follows the code.

## Model

| member | source | states |
|---|---|---|
| `LogAllocator.MembersGrouping` | src/cluster_mgr/src/config/log_service.rs:348-469 | the nested greedy loops over flags, rotation counter and host map end, and return the groups of the recursive specification whatever order the hash map hands its keys out in |
| `LogAllocator.AssignLeader` | src/cluster_mgr/src/config/log_service.rs:376-406 | the rotation loop finds the first host, from the rotation index on, that has an unassigned node, takes its first one and leaves the index just behind it |
| `LogAllocator.FillSlot` | src/cluster_mgr/src/config/log_service.rs:409-459 | one slot goes to the first unassigned node of the first host not used by the group, else to the first unassigned node of all |
| `LogAllocator.BuildRound` | src/cluster_mgr/src/config/log_service.rs:372-466 | one pass of the outer loop builds the specified group, assigns exactly its nodes and advances the rotation as specified |
| `LogAllocator.NodesByHost` | src/cluster_mgr/src/config/log_service.rs:353-359 | the map from hosts to the ascending indices of their nodes |
| `LogGroups.HostOrderIsForgotten` | src/cluster_mgr/src/config/log_service.rs:361-364 | sorting the keys of the host map gives the same hosts for every iteration order |
| `LogGroups.LeaderFound` | src/cluster_mgr/src/config/log_service.rs:381-406 | as many rotation steps as there are hosts visit every host, so every round assigns a leader while a node is unassigned, which is why grouping terminates |
| `LogGroups.RoundFacts` | src/cluster_mgr/src/config/log_service.rs:372-466 | one round yields a non-empty group of distinct unassigned nodes, full while nodes last, spanning as many hosts as possible, led from the host whose turn it is |
| `LogGroupProperties.GroupsPartitionNodes` | src/cluster_mgr/src/config/log_service.rs:348-469 | for a replica count of at least 1 every node is in exactly one group, once |
| `LogGroupProperties.GroupsAreSized` | src/cluster_mgr/src/config/log_service.rs:348-469 | every group but the last has exactly `replica` members, the last at least one, and there are ceil(n / replica) groups |
| `LogGroupProperties.ProbeExpectsFullGroups` | src/cluster_mgr/src/cli/task/eloq_log_probe_task.rs:143 | the probe's `nodes_count / replica` is the number of full groups, and the number of groups exactly when the replica count divides the node count |
| `LogGroupProperties.GroupCountAgrees` | src/cluster_mgr/src/config/log_service.rs:130-145 | `group()` is ceil(hosts / replica), and the number of groups built exactly when hosts and nodes need equally many |
| `LogGroupProperties.EveryGroupIsDiverse` | src/cluster_mgr/src/config/log_service.rs:408-460 | each group spans min(its size, hosts with an unassigned node at its start) hosts, and no choice of that many unassigned nodes spans more |
| `LogGroupProperties.OpenHostsLedEveryTurn` | src/cluster_mgr/src/config/log_service.rs:366-406 | after any number of rounds a host that still has an unassigned node has led exactly as many groups as rotation steps came past its position |
| `LogGroupProperties.LeadersAreFair` | src/cluster_mgr/src/config/log_service.rs:366-406 | at any point of the allocation, a host that still has an unassigned node has led as many groups as there are steps below the rotation index at its position, and two such hosts' counts differ by at most one |
| `LogGroupProperties.ConsecutiveLeadersDiffer` | src/cluster_mgr/src/config/log_service.rs:376-406 | consecutive groups are led from different hosts whenever another host still had an unassigned node |
| `LogGroupProperties.UnassignedNodes` | src/cluster_mgr/src/config/log_service.rs:366-372 | a node is unassigned when a group is started exactly when no earlier group holds it |
| `LogGroupProperties.EveryChoiceIsFirst` | src/cluster_mgr/src/config/log_service.rs:376-459 | which node each place goes to: the leader is the first unassigned node of its host; any other place goes to the first unassigned node of the first host in ascending order that the group does not use yet, or else to the first unassigned node of all |
| `LogGroupProperties.TableCells` | src/cluster_mgr/src/config/log_service.rs:388-399 | every cell of the table has its node's index and host, disk index 0, and the node's first directory or `default` |
| `LogMembers.RowsKeptIffNoHoles` | src/cluster_mgr/src/config/log_service.rs:198-244 | the hole-merging branches leave the table alone exactly when no cell carries the hole marker |
| `LogMembers.HoledRow` | src/cluster_mgr/src/config/log_service.rs:199-240 | a full row with holes is kept exactly when the next row begins with as many solid cells, and consists of its own solid cells and those; a last row with holes is kept as far as it has a full group of solid cells |
| `LogMembers.KeptRowsAreFilled` | src/cluster_mgr/src/config/log_service.rs:198-246 | the rows that are kept are the merged ones that are not empty, in order |
| `LogMembers.NodesAreSortedByHost` | src/cluster_mgr/src/config/log_service.rs:189-190 | the nodes in ascending order of host, those of one host in their listed order |
| `LogMembers.EveryRowIsAGroup` | src/cluster_mgr/src/config/log_service.rs:198-284 | without a first data directory named `_NONE_` every row of the allocator becomes a group, in order and complete |
| `LogMembers.MembersRunOnTheirNodes` | src/cluster_mgr/src/config/log_service.rs:247-281 | every member of every group has the host and port of the node that the allocator put there, its first data directory or `default`, the number of its group, and the health URL of that address |
| `LogMembers.FirstNumbers` | src/cluster_mgr/src/config/log_service.rs:264-272 | before the renumbering a member's number is the first listed position of its host and port |
| `LogMembers.GroupsAreNumbered` | src/cluster_mgr/src/config/log_service.rs:282-284 | the groups are numbered in order, also where rows are dropped |
| `LogMembers.NumbersArePositions` | src/cluster_mgr/src/config/log_service.rs:289-312 | renumbering through the address map gives every member the last position of its host and port, whatever number it had, and so its own position exactly when no address occurs twice |
| `LogMembers.NodeIdsArePositions` | src/cluster_mgr/src/config/log_service.rs:188-316 | all nodes become members once each, and are numbered 0 to n-1 in group order exactly when no two nodes share host and port |
| `LogMembers.ServiceListIndexedByNodeId` | src/cluster_mgr/src/config/deployment.rs:489-511 | with distinct addresses the sort by id changes nothing and entry `node_id` of `txlog_service_list` is the member's own address |
| `LogMembers.MembersAreSortedByNumber` | src/cluster_mgr/src/config/log_service.rs:502-512 | whatever the addresses are, the list of all members is in ascending order of their numbers, and those that share one are in group order |
| `LogMembers.LaunchCommandsAgree` | src/cluster_mgr/src/config/log_service.rs:515-545 | every member is launched once on its own host and on no other, in ascending order of numbers, with a member list, equal to the service list, in which entry `node_id` is its own address |
| `LogMemberBuilder.BuildGroupMembers` | src/cluster_mgr/src/config/log_service.rs:188-316 | the loops over rows, the address map and the renumbering pass give the specified groups |
| `LogMemberBuilder.AddressIndex` | src/cluster_mgr/src/config/log_service.rs:297-302 | inserting all addresses in order leaves each at its last position |
| `LogMemberBuilder.CollectGroups` | src/cluster_mgr/src/config/log_service.rs:196-284 | the loop over the rows keeps, merges or drops each row as specified and numbers the groups it keeps |
| `ManifestKeys.CurrentKeyRead` | src/cluster_mgr/src/cli/task/eloqstore_cloud_restore_task.rs:243-252 | a current manifest key is read back as its term by the current-manifest parser and passes the delete filter |
| `ManifestKeys.BackupKeyRead` | src/cluster_mgr/src/cli/task/eloqstore_cloud_restore_task.rs:210-252 | a backup key is read back as its term by the backup parser, and by neither test for current manifests |
| `ManifestKeys.BackupKeyReadAs` | src/cluster_mgr/src/cli/task/eloqstore_cloud_restore_task.rs:210-240 | a backup's term is read with the backup's own stamp and with no other |
| `ManifestKeys.EndsInStamp` | src/cluster_mgr/src/cli/task/eloqstore_cloud_restore_task.rs:73-76 | a backup ends in a stamp exactly when it is its own; a current manifest exactly when its term is the stamp |
| `ManifestKeys.CurrentContainsStamp` | src/cluster_mgr/src/cli/task/eloqstore_cloud_restore_task.rs:85-88 | the `contains` test takes a current manifest for a backup exactly when its directory contains the pattern or its term's digits begin with the stamp's |
| `ManifestKeys.SmallTermsAreClear` | src/cluster_mgr/src/cli/task/eloqstore_cloud_restore_task.rs:85-88 | a term numerically below the stamp is never taken for a backup, since a decimal with the stamp as prefix is at least the stamp |
| `ManifestKeys.CurrentKeyInjective` | src/cluster_mgr/src/cli/task/eloqstore_cloud_restore_task.rs:97 | directory and term can be told from a current manifest's key |
| `ManifestKeys.BackupKeyInjective` | src/cluster_mgr/src/cli/task/eloqstore_cloud_restore_task.rs:73 | directory, term and stamp can be told from a backup's key |
| `ManifestKeys.CurrentNameIff` | src/cluster_mgr/src/cli/task/eloqstore_cloud_restore_task.rs:224-252 | any key is a current manifest's of a term exactly when its last segment is `manifest_` and the term as a 64-bit number; the delete filter takes those keys and no others |
| `ManifestKeys.BackupNameIff` | src/cluster_mgr/src/cli/task/eloqstore_cloud_restore_task.rs:210-222 | any key is a backup's of a stamp and term exactly when its last segment is `manifest_`, the term as a 64-bit number, `_` and the stamp |
| `ManifestKeys.PartitionNameIff` | src/cluster_mgr/src/cli/task/eloqstore_cloud_restore_task.rs:176-190 | a directory name is a partition's exactly when behind its last dot there is a 32-bit number |
| `ManifestKeys.NumberedPartition` | src/cluster_mgr/src/cli/task/eloqstore_cloud_restore_task.rs:176-190 | `<table>.<id>` is a partition's name exactly when the id has 32 bits |
| `ManifestKeys.ListedIff` | src/cluster_mgr/src/cli/task/eloqstore_cloud_restore_task.rs:154-206 | a directory is listed exactly when a key lies below it and its name is a partition's |
| `ManifestKeys.ManifestMakesPartition` | src/cluster_mgr/src/cli/task/eloqstore_cloud_restore_task.rs:154-206 | a partition `<table>.<id>` with a manifest is listed, whatever the table is called |
| `CloudDuplicates.PlanShowsABackup` | src/cluster_mgr/src/cli/task/eloqstore_cloud_restore_task.rs:57-149 | for terms below the stamp the plan of a partition never fails, shows a backup of the stamp if there is one and leaves no current manifest if there is none, and changes current manifests only; the outcome tells which of the three cases it was |
| `CloudRestore.CopyPlan` | src/cluster_mgr/src/cli/task/eloqstore_cloud_restore_task.rs:78-109 | whatever the terms are: where the copy goes when the key found first is a backup, one of several or not |
| `CloudRestore.DeletePlan` | src/cluster_mgr/src/cli/task/eloqstore_cloud_restore_task.rs:110-148 | when no key ends in the stamp the plan deletes exactly the current manifests |
| `CloudRestore.PlanFailsIff` | src/cluster_mgr/src/cli/task/eloqstore_cloud_restore_task.rs:73-82 | the restore of a partition fails, before it changes anything, exactly when the key found first is the current manifest whose term is the stamp |
| `CloudRestore.MatchCases` | src/cluster_mgr/src/cli/task/eloqstore_cloud_restore_task.rs:73-76 | the key found first is a backup of the stamp or the current manifest whose term is the stamp; nothing is found only if neither exists |
| `CloudRestore.CopyGoesToHighestIff` | src/cluster_mgr/src/cli/task/eloqstore_cloud_restore_task.rs:84-98 | whenever a backup is found, whatever the terms are: its copy becomes the highest current manifest exactly when there was none, when the highest is not taken for a backup, or when all are and the backup's own term is as high |
| `CloudDuplicates.ListingIsIrrelevantIff` | src/cluster_mgr/src/cli/task/eloqstore_cloud_restore_task.rs:73-109 | all listings of a partition lead to the same bucket exactly when its backups of the stamp have the same content and, where no current manifest is replaced, the same term |
| `CloudRuns.PlannedOpsAreGoals` | src/cluster_mgr/src/cli/task/eloqstore_cloud_restore_task.rs:57-149 | for a listing in key order, or one backup of the stamp: every single copy or delete of the plan is one that the restore of the partition stands for, the copy of the first backup or the delete of a current manifest |
| `CloudRuns.GoalsPersist` | src/cluster_mgr/src/cli/task/eloqstore_cloud_restore_task.rs:57-149 | a copy or delete that was right before other requests of the same restore is right after them |
| `CloudRuns.RestoreAllAgrees` | src/cluster_mgr/src/cli/task/eloqstore_cloud_restore_task.rs:337-366 | the partition loop gives every partition its restored manifests and changes nothing else, in any order |
| `CloudDuplicates.RunShowsBackups` | src/cluster_mgr/src/cli/task/eloqstore_cloud_restore_task.rs:337-366 | after any run, with any listings, interruptions and repetitions, a partition whose last visit was complete shows one of its backups of the stamp in its highest current manifest, or has no current manifest where it has no backup; every other key, backups of all timestamps among them, is unchanged |
| `CloudDuplicates.InterruptedRunShowsBackups` | src/cluster_mgr/src/cli/task/eloqstore_cloud_restore_task.rs:337-366 | the same holds for every partition of the first bucket when a complete run, over the partitions then listed, follows interrupted ones |
| `CloudTheorems.RestartConverges` | src/cluster_mgr/src/cli/task/eloqstore_cloud_restore_task.rs:337-366 | stopping after any requests, listing again and restoring in any order gives the bucket of one clean run; where a partition has several backups of the stamp, the one first in key order is meant |
| `CloudTheorems.PartitionOrderIsIrrelevant` | src/cluster_mgr/src/cli/task/eloqstore_cloud_restore_task.rs:337-366 | two orders of the partitions give the same bucket |
| `CloudTheorems.RestoreTwiceIsRestoreOnce` | src/cluster_mgr/src/cli/task/eloqstore_cloud_restore_task.rs:337-366 | a second restore of the same snapshot changes nothing |
| `CloudTheorems.LastRestoreWins` | src/cluster_mgr/src/cli/task/eloqstore_cloud_restore_task.rs:337-366 | restoring one snapshot and then another shows in every partition what the second alone shows |
| `CloudTheorems.DeleteRemovesTheStamp` | src/cluster_mgr/src/cli/task/eloqstore_cloud_delete_task.rs:58-119 | a delete asks for exactly the backups of the stamp and the current manifest whose term is the stamp; for backups only exactly when there is no such current manifest |
| `CloudTheorems.DeleteKeepsOtherSnapshots` | src/cluster_mgr/src/cli/task/eloqstore_cloud_delete_task.rs:58-119 | a restore at another timestamp shows the same content in every partition before and after a delete, complete or not, even one that takes current manifests |
| `CloudTheorems.DeleteKeepsVisible` | src/cluster_mgr/src/cli/task/eloqstore_cloud_delete_task.rs:58-119 | a delete, complete or not, changes what the database reads from a partition only if the term it reads is the stamp |
| `CloudTheorems.RestoreCanMissTheHighestTerm` | src/cluster_mgr/src/cli/task/eloqstore_cloud_restore_task.rs:84-98 | a family of partitions in which the highest term's digits begin with the stamp: the copy goes to a lower term and the old content stays visible |
| `CloudTheorems.TermTwelveHidesTermFive` | src/cluster_mgr/src/cli/task/eloqstore_cloud_restore_task.rs:84-98 | terms 12 and 5 at timestamp 1 are such a partition |
| `CloudTasks.ProcessPartitionRestore` | src/cluster_mgr/src/cli/task/eloqstore_cloud_restore_task.rs:57-149 | the program follows the plan of its listing up to the first failed request, and fails only if a request failed or the plan does |
| `CloudTasks.ExecuteRestore` | src/cluster_mgr/src/cli/task/eloqstore_cloud_restore_task.rs:295-379 | the restore task changes current manifests only, the counts add up, and success means that every partition shows one of its backups or nothing; with listings in key order, or one backup of the stamp, success means the bucket is the restored one, and failure at any request leaves a bucket that leads to the same result; it reports as many errors as requests failed, and after a success how many partitions had a backup, lost their manifests, or had nothing |
| `CloudTasks.ProcessPartitionDelete` | src/cluster_mgr/src/cli/task/eloqstore_cloud_delete_task.rs:58-119 | the delete loop goes on after failures, removes only what it was asked for, and succeeds exactly when no request failed, with all of it gone and its number returned |
| `CloudTasks.ExecuteDelete` | src/cluster_mgr/src/cli/task/eloqstore_cloud_delete_task.rs:217-340 | the delete task removes nothing but backups of the stamp and current manifests whose term is the stamp, backups only where there is no such manifest; when no request failed it removes all of them and reports their number; the record goes with `--force` or when no request failed |
| `CloudTasks.ListTablePartitionDirs` | src/cluster_mgr/src/cli/task/eloqstore_cloud_restore_task.rs:154-207 | the listing delivers each partition directory of the bucket once |
| `DownloadTheorems.DigestGuards` | src/cluster_mgr/src/cli/task/download_task.rs:271-289 | whatever the server sends and whatever is on disk, success with an expected digest leaves a saved file of that digest |
| `DownloadTheorems.PartialIsAlwaysAPrefix` | src/cluster_mgr/src/cli/task/download_task.rs:335-606 | against an honest server the partial file is a prefix of the content after every file operation of every attempt |
| `DownloadTheorems.BlocksAreChunks` | src/cluster_mgr/src/cli/task/download_task.rs:544-579 | the blocks flushed at the threshold and at the end are the received chunks, in order and complete |
| `DownloadResults.SavedIsTheContent` | src/cluster_mgr/src/cli/task/download_task.rs:608-633 | when for each attempt a HEAD request up to then is answered or the bodies come with lengths: success leaves the content in the saved file, or keeps one of the expected digest, of the right length, or, when nothing tells anything about it, one that is not empty |
| `DownloadResults.NoByteIsLost` | src/cluster_mgr/src/cli/task/download_task.rs:303-606 | under the same condition and with the right digest, each disk of the run keeps the partial file before it until the content is saved; a saved file that is a beginning becomes the partial file |
| `DownloadResults.OneFullReplyIsEnough` | src/cluster_mgr/src/cli/task/download_task.rs:271-633 | under the same condition, one attempt answered in full, after any failed, stalled or short ones that no error status ended, makes the download succeed: a saved file of the expected digest or of the length told, or one about which nothing is told, is kept, and in every other case the content is saved |
| `DownloadLengths.SafeExactlyIfEnoughIsTold` | src/cluster_mgr/src/cli/task/download_task.rs:335-633 | without an expected digest, downloads from all honest servers that tell lengths in a given manner save the content if and only if, for each attempt, that manner answers a HEAD request up to then or gives every body its length |
| `DownloadLengths.TruncationIsAccepted` | src/cluster_mgr/src/cli/task/download_task.rs:583-630 | when attempt k has no length to go by, whatever lengths are told later or elsewhere, an honest server can have a prefix of the content saved as the whole |
| `DownloadLengths.LengthlessResume` | src/cluster_mgr/src/cli/task/download_task.rs:466-486 | in whichever attempt a run comes to it, a complete 206 body without any length succeeds when it is empty, and is refused as a size mismatch when it brings anything; a saved file of the partial file's length is kept instead |
| `DownloadOutcomes.CompletePartIsSaved` | src/cluster_mgr/src/cli/task/download_task.rs:353-386 | a partial file of the known length and the expected digest becomes the saved file without a request |
| `DownloadOutcomes.WrongPartIsDropped` | src/cluster_mgr/src/cli/task/download_task.rs:353-386 | a partial file that is too long, or as long as the whole but of another digest, is removed, and the attempt goes on as without one |
| `DownloadOutcomes.NoResponseIsRetried` | src/cluster_mgr/src/cli/task/download_task.rs:400-419 | without a response the files stay as they are, and another attempt follows, up to the eighth |
| `DownloadOutcomes.RefusalEndsTheRun` | src/cluster_mgr/src/cli/task/download_task.rs:420-502 | a status outside 200 to 299 ends the run at once; a success other than 206 to a resumed request is retried; the files stay as they are |
| `DownloadOutcomes.BodyIsKept` | src/cluster_mgr/src/cli/task/download_task.rs:446-606 | what a used body is measured against, when a saved file is settled for, and that everything that arrived is kept when the body broke off or is too short |
| `DownloadOutcomes.ReceivedIsChecked` | src/cluster_mgr/src/cli/task/download_task.rs:608-645 | after the loop a file of another digest is removed, one of another length is left for a later run, and any other becomes the saved file |
| `DownloadOutcomes.FailureKeepsTheSavedFile` | src/cluster_mgr/src/cli/task/download_task.rs:249-645 | a failed run leaves the saved file that it found, except that a beginning has become the partial file; the last file operation leaves what the run leaves |
| `DownloadOutcomes.SilentServerSucceedsIff` | src/cluster_mgr/src/cli/task/download_task.rs:271-386 | when no request is ever answered, a run succeeds exactly when the saved file is kept or the partial file is whole by the first length that one of eight HEAD requests tells |
| `DownloadOutcomes.BlocksGroupChunks` | src/cluster_mgr/src/cli/task/download_task.rs:544-579 | the buffer is written with the chunk that fills it to a mebibyte and not before, and at the end |
| `DownloadTask.Execute` | src/cluster_mgr/src/cli/task/download_task.rs:249-645 | the program over the two files runs through the same disks to the same result as the specification |
| `DownloadTask.RunAttempts` | src/cluster_mgr/src/cli/task/download_task.rs:335-645 | the retry loop with its carried length is the recursive specification of the attempts |
| `DownloadTask.Try` | src/cluster_mgr/src/cli/task/download_task.rs:336-386 | the checks on the partial file's length and digest before a request is made |
| `DownloadTask.Files.Stream` | src/cluster_mgr/src/cli/task/download_task.rs:542-581 | the stream loop appends the chunks, block by block |
| `YamlDiff.DiffEmptyIffEqual` | src/cluster_mgr/src/cli/cmd_base.rs:1422-1463 | nothing is reported exactly when the two trees are equal |
| `YamlDiff.ReportedPathsDiffer` | src/cluster_mgr/src/cli/cmd_base.rs:1422-1463 | every reported path holds different values, and every difference lies at or below a reported path |
| `YamlDiff.DiffSymmetric` | src/cluster_mgr/src/cli/cmd_base.rs:1422-1463 | the report is the same in both directions |
| `YamlDiff.DiffIsAPatch` | src/cluster_mgr/src/cli/cmd_base.rs:1422-1463 | putting desired's value, or removing the key, at every reported path of current yields desired |
| `YamlDiff.DiffMembers` | src/cluster_mgr/src/cli/cmd_base.rs:1429-1449 | a path is reported for two mappings exactly when its rest is reported for the values at its first key |
| `YamlDiffProgram.PushYamlDiff` | src/cluster_mgr/src/cli/cmd_base.rs:1422-1463 | the recursion appends exactly the rendered paths of the diff to the vector, in key order |
| `YamlDiffProgram.CollectKeys` | src/cluster_mgr/src/cli/cmd_base.rs:1430-1437 | the string keys of both mappings, each once, ascending |
| `YamlDiffProgram.RenderReadsBack` | src/cluster_mgr/src/cli/cmd_base.rs:1439-1443 | a reported text determines its path when keys are non-empty and dot-free |
| `DiffFilter.SameFilteredDiff` | src/cluster_mgr/src/cli/cmd_base.rs:1597-1623 | two pairs of mappings whose children have the same filtered diffs have the same filtered diff |
| `ReconcileProgram.BuildReconcilePlan` | src/cluster_mgr/src/cli/cmd_base.rs:1465-1667 | the program that reassigns the merged and the desired configuration, flags and vectors builds the specified plan, or the cluster-name error |
| `ReconcileProgram.PlanScalars` | src/cluster_mgr/src/cli/cmd_base.rs:1485-1526 | the optional deployment fields: what is merged, what counts as desired for the diff, the changes and the field updates |
| `ReconcileProgram.PlanPrometheus` | src/cluster_mgr/src/cli/cmd_base.rs:1528-1595 | the three optional Prometheus fields, in all combinations of present and absent sections |
| `ReconcileProgram.Classify` | src/cluster_mgr/src/cli/cmd_base.rs:1608-1641 | reported texts are parted into storage texts and unsupported texts, the latter once each |
| `ReconcileProgram.PlanActions.Add` | src/cluster_mgr/src/cli/reconcile.rs:264-268 | an action is appended unless it is planned already |
| `Reconcile.PlanEmptyIffNoChanges` | src/cluster_mgr/src/cli/reconcile.rs:260-262 | a plan is empty exactly when its changes are empty |
| `ReconcileTheorems.ReplanConverges` | src/cluster_mgr/src/cli/cmd_base.rs:1465-1667 | planning again from the merged configuration merges nothing more, reports the same unsupported differences, and has as its only changes the storage differences of the first plan |
| `ReconcilePromises.ReplanIsEmptyIff` | src/cluster_mgr/src/cli/cmd_base.rs:1465-1667 | the second plan is empty exactly when the storage services agreed to begin with |
| `ReconcilePromises.NothingIsDropped` | src/cluster_mgr/src/cli/cmd_base.rs:1597-1641 | every differing path is a change with its old and new value, a storage change, an unsupported difference, or a mergeable field that desired omits |
| `ReconcilePromises.AnnouncedIsSaved` | src/cluster_mgr/src/cli/cmd_base.rs:1485-1595 | the announced field changes are exactly the paths at which the merged configuration differs from current, with the value it had and the desired value it has now |
| `ReconcilePromises.SentIsSaved` | src/cluster_mgr/src/cli/cmd_base.rs:1496-1526 | the field updates of a plan are, for the interval and the mode in that order, the key, a colon and the value of the merged configuration, exactly where that differs from current |
| `ReconcilePromises.NormalizeForgetsExactly` | src/cluster_mgr/src/cli/cmd_base.rs:1408-1420 | normalising makes two configurations equal exactly when they differ at most in the two images and in the choice among floating versions |
| `ReconcilePromises.MergedDiffIsOfFields` | src/cluster_mgr/src/cli/cmd_base.rs:1472-1595 | the merged configuration differs from current in the mergeable fields only |
| `ReconcilePromises.StoreDiffsEmptyIff` | src/cluster_mgr/src/cli/cmd_base.rs:1608-1622 | the storage report is empty exactly when the storage services agree |
| `ReconcilePromises.ReportsAreApart` | src/cluster_mgr/src/cli/cmd_base.rs:1608-1641 | no text is reported both as a storage difference and as unsupported, none twice as unsupported, and those of the mergeable fields as neither |
| `ReconcilePromises.OneClusterIsPlanned` | src/cluster_mgr/src/cli/cmd_base.rs:1465-1471 | a plan carries the cluster's name, and configurations of two clusters are refused with both names |
| `ReconcileYaml.YamlTellsAll` | src/cluster_mgr/src/cli/cmd_base.rs:1597-1606 | configurations with the same YAML are the same, so that no field escapes the diff |
| `ReconcileYaml.NothingDiffersIff` | src/cluster_mgr/src/cli/cmd_base.rs:1597-1606 | the diff is empty exactly when current and what counts as desired agree after normalising |
| `ReconcileYaml.OnlyGivenFieldsDiffer` | src/cluster_mgr/src/cli/cmd_base.rs:1485-1526 | the diff sees the interval and the mode exactly when desired gives another value, and TLS never |
| `ReconcileYaml.OnlyGivenPrometheusDiffers` | src/cluster_mgr/src/cli/cmd_base.rs:1528-1595 | the same for the three Prometheus fields |
| `ReconcilePromises.PlannedActionsAreExact` | src/cluster_mgr/src/cli/cmd_base.rs:1643-1664 | the actions of a plan, each at most once, and which settings of the two configurations cause each; a non-empty list ends by verifying the cluster |
| `ReconcilePromises.ActionsAreInOrder` | src/cluster_mgr/src/cli/cmd_base.rs:1643-1664 | the actions come in one order: the index is saved before anything is restarted, and node configurations are written before the nodes that read them are restarted |
| `ReconcilePromises.ChangesAreInOrder` | src/cluster_mgr/src/cli/cmd_base.rs:1485-1622 | the changes are those of the six fields, each at most once and in one order, and then a text for each storage difference |
| `ReconcileReport.DiffKept` | src/cluster_mgr/src/cli/cmd_base.rs:1597-1606 | a difference outside the mergeable fields is reported for any configurations that agree outside those fields |
| `ReconcilePaths.SupportedTextIff` | src/cluster_mgr/src/cli/cmd_base.rs:1624-1636 | the text of a path is in the list of supported texts exactly when the path is one of the five, whatever keys the maps below the structure fields hold |
| `ReconcilePaths.StoreTextIff` | src/cluster_mgr/src/cli/cmd_base.rs:1608-1613 | the text of a path has the storage prefix exactly when the path leads into the storage service |
| `ReconcilePaths.DiffIsHeadNamed` | src/cluster_mgr/src/cli/cmd_base.rs:1597-1606 | every path of the diff of two configurations begins with structure field names |
| `MutationLock.LockIsExclusive` | src/cluster_mgr/src/cli/cmd_base.rs:121-192 | in every interleaving of spawn, create, write, failed write, release, death and stale removal at most one live process holds the lock, and the file on disk is its own and names its pid |
| `MutationLock.StepKeepsInv` | src/cluster_mgr/src/cli/cmd_base.rs:121-192 | every step keeps the invariant behind that |
| `MutationLock.WhatAStepChanges` | src/cluster_mgr/src/cli/cmd_base.rs:121-192 | a step moves no process but its own; the file comes blank by its creator, gets its content by its creator's write, and goes by a release or as a stale one |
| `MutationLock.ReleaseFreesTheLock` | src/cluster_mgr/src/cli/cmd_base.rs:188-192 | after a release there is no file, nobody is in possession, and every live process can create it at once |
| `MutationLock.CheckNeedsAStaleFile` | src/cluster_mgr/src/cli/cmd_base.rs:138-139 | the separate check succeeds on a stale file only and changes nothing |
| `MutationLock.StaleHasNoOwner` | src/cluster_mgr/src/cli/cmd_base.rs:177-185 | behind a stale file there is no live process in possession |
| `MutationLock.AbandonedIsReachable` | src/cluster_mgr/src/cli/cmd_base.rs:126-136 | a death between creating and writing the file leaves a blank file without a writer |
| `MutationLock.AbandonedForever` | src/cluster_mgr/src/cli/cmd_base.rs:130-136 | a file left blank by a death or a failed write before the content was written is never removed in any continuation, and nobody holds the lock again |
| `MutationLock.LockIsRecoverableIff` | src/cluster_mgr/src/cli/cmd_base.rs:121-192 | from every state that a run reaches, some continuation ends with a process holding the lock exactly when the file is not such an abandoned one |
| `MutationLock.RemovalBreaksIff` | src/cluster_mgr/src/cli/cmd_base.rs:138-142 | with check and removal apart, a removal after harmless ones opens the way to two live processes holding the lock, without any further removal, exactly when a live process has taken over the file since the check |
| `MutationLock.UndisturbedRunKeepsInv` | src/cluster_mgr/src/cli/cmd_base.rs:138-142 | runs whose removals are all of that kind keep the invariant |
| `MutationLock.SplitRemovalBreaks` | src/cluster_mgr/src/cli/cmd_base.rs:138-142 | a run with check and removal apart after which two live processes hold the lock |
| `MutationLock.PidIsReadBack` | src/cluster_mgr/src/cli/cmd_base.rs:125-162 | the pid in the lock's content is read back whatever the cluster and command are called; an empty file names none |
| `MutationLock.FirstNamedCounts` | src/cluster_mgr/src/cli/cmd_base.rs:157-162 | the pid of a content is that of the first line that reads `pid=` and a 32-bit number, white space aside |
| `MutationLock.NameCharacters` | src/cluster_mgr/src/cli/cmd_base.rs:108-119 | the ends of the ranges of letters and digits are kept in the lock's name and their neighbours become `_` |
| `MutationLock.SameLockIff` | src/cluster_mgr/src/cli/cmd_base.rs:108-119 | two clusters share a lock file exactly when their names differ only where both characters become `_` |
| `ClusterParser.ParseClusterConfig` | src/cluster_mgr/src/cli/task/cluster_config_utils.rs:32-137 | the program with line index, word cursor and map accepts the same texts with the same result, and fails with the same error, as the specification |
| `ClusterParser.ParseNode` | src/cluster_mgr/src/cli/task/cluster_config_utils.rs:71-113 | one quadruple: the order in which missing and malformed words are reported |
| `ClusterWire.ParserUndoesTheWire` | src/cluster_mgr/src/cli/task/cluster_config_utils.rs:32-137 | parsing the printed configuration, groups in any order, gives it back exactly when every port fits in 16 bits with the offset added; else the port is refused |
| `ClusterWire.SmallPortsWrap` | src/cluster_mgr/src/cli/task/cluster_config_utils.rs:91-92 | a port below the offset wraps to one far above it |
| `ClusterWire.ParsedFits` | src/cluster_mgr/src/cli/task/cluster_config_utils.rs:32-137 | every accepted text gives ids, ports and a version in range and hosts without white space |
| `ClusterGrammar.AcceptedIff` | src/cluster_mgr/src/cli/task/cluster_config_utils.rs:32-137 | a text is accepted with a configuration exactly when it is one by positions of lines and words: the number of groups, a line of id and quadruples for each, the last of several with one id counting, and the version |
| `ClusterGrammar.GroupIff` | src/cluster_mgr/src/cli/task/cluster_config_utils.rs:55-125 | a line is accepted as a group exactly when it holds an id and, four words each, the nodes, the port being 10000 less on 16 bits and any flag but 0 a candidate |
| `ClusterGrammar.RefusedAt` | src/cluster_mgr/src/cli/task/cluster_config_utils.rs:32-137 | every other text is reported with the first thing that is missing or wrong in it |
| `TextLines.LineBreaks` | src/cluster_mgr/src/cli/task/cluster_config_utils.rs:33 | a line ends before a line feed or before a carriage return in front of one |
| `TextLines.LastPiece` | src/cluster_mgr/src/cli/task/cluster_config_utils.rs:33 | what stands behind the last line feed is a line unless it is empty |
| `NodeLists.FormatForgetsOrder` | src/cluster_mgr/src/cli/task/cluster_config_utils.rs:140-254 | any enumeration of the group map gives the same three strings |
| `NodeLists.ListsSurviveReading` | src/cluster_mgr/src/config/deployment.rs:2283-2295 | for separator-free hosts, reading a list back gives the masters, replicas or voters in ascending group id order |
| `NodeLists.EntriesAreReadInTurn` | src/cluster_mgr/src/config/deployment.rs:2283-2295 | the entries of a field are read one after the other |
| `SavedAddresses.UpdateSavesAddresses` | src/cluster_mgr/src/cli/task/db_update_task.rs:56-109 | the fields after an update from a configuration that the cluster prints: groups ascending, of each the addresses `host:port` of its first candidate, of its other candidates, or of its other nodes, each once and in order, with the nodes' own ports; commas part groups and bars the entries of one; lists without entries keep or empty their field |
| `SavedAddresses.FallbackSavesAddresses` | src/cluster_mgr/src/cli/task/db_update_task.rs:122-201 | the fields after the fallback: the addresses of the reported masters and replicas in order, voters as before |
| `SavedAddresses.PartListsRole` | src/cluster_mgr/src/cli/task/cluster_config_utils.rs:144-247 | of each group the list of a role has the address of every node of the role, once, in the order of the group |
| `NodeLists.RolesConserveNodes` | src/cluster_mgr/src/cli/task/cluster_config_utils.rs:144-247 | the three roles account for every node of a group as often as it is listed, exactly when no address repeats among later candidates nor among voters; at most one master a group, its first candidate |
| `NodeLists.ListIsFilledIff` | src/cluster_mgr/src/cli/task/cluster_config_utils.rs:144-254 | the list of masters, replicas or voters is not empty exactly when some group has a candidate, a second candidate, or a node that is no candidate |
| `NodeListsProgram.FormatNodeLists` | src/cluster_mgr/src/cli/task/cluster_config_utils.rs:140-254 | the program, from any enumeration of the map, computes the three specified strings |
| `NodeListsProgram.MasterGroup` | src/cluster_mgr/src/cli/task/cluster_config_utils.rs:149-166 | the flag-controlled scan finds the first candidate |
| `NodeListsProgram.KeepUnseen` | src/cluster_mgr/src/cli/task/cluster_config_utils.rs:192-200 | filtering through a set of seen addresses keeps each address once, where it first occurs |
| `NodeListsProgram.SortEntries` | src/cluster_mgr/src/cli/task/cluster_config_utils.rs:169-169 | sorting the pairs by group id is sorting the ids |
| `TopologyTask.TxService.UpdateSavedTopology` | src/cluster_mgr/src/cli/task/db_update_task.rs:56-109 | the update of the three fields from the parsed configuration, or from the node lists where there is none or it is malformed |
| `TopologyTask.TxService.UpdateFromConfig` | src/cluster_mgr/src/cli/task/db_update_task.rs:66-97 | the three fields after an update from a parsed configuration, in both operations |
| `TopologyTask.TxService.UpdateFromClusterNodes` | src/cluster_mgr/src/cli/task/db_update_task.rs:122-201 | the fallback replaces masters and replicas; removing all replicas leaves an empty list, voters stay |
| `TopologyTask.TxService.ValidateTopology` | src/cluster_mgr/src/config/config_base.rs:123-160 | the loops with early return report the first error of the three fields, in field and entry order |
| `TopologyTask.TxService.ValidateEntry` | src/cluster_mgr/src/config/config_base.rs:95-121 | the first token of an entry that is not host and port is reported with its error |
| `TopologyTheorems.ScalingValidity` | src/cluster_mgr/src/cli/task/db_update_task.rs:56-201 | from a valid topology, adding nodes always gives a valid one; removing nodes exactly when some group has a second candidate and some group a node that is none (in the fallback, when there is a replica) |
| `TopologyTheorems.ListsKeepValidity` | src/cluster_mgr/src/cli/task/db_update_task.rs:66-97 | the same for an update from a parsed configuration |
| `TopologyTheorems.NodesKeepValidity` | src/cluster_mgr/src/cli/task/db_update_task.rs:122-201 | the same for the fallback |
| `TopologyTheorems.MastersHoldNoBar` | src/cluster_mgr/src/cli/task/cluster_config_utils.rs:169-180 | the list of masters never holds the group separator that its field does not accept |
| `TopologyTheorems.TokenPassesIff` | src/cluster_mgr/src/config/config_base.rs:105-119 | a token passes exactly when it is blank or, trimmed, a host that is not blank, a colon and a 16-bit port |
| `TopologyTheorems.ColonIsMissed` | src/cluster_mgr/src/config/config_base.rs:105-119 | a token that is not blank is reported as no host and port exactly when it has no colon |
| `TopologyTheorems.TokenErrorIs` | src/cluster_mgr/src/config/config_base.rs:105-119 | otherwise a blank host before the last colon is reported, and then a port that is not a 16-bit number |
| `TopologyTheorems.FirstBadIsReported` | src/cluster_mgr/src/config/config_base.rs:95-160 | a field without entries is reported, and else the first token of the first entry that does not pass; a field passes exactly when every token of every entry does |
| `TopologyTheorems.FirstFieldIsReported` | src/cluster_mgr/src/config/config_base.rs:123-160 | the fields are checked in order, the optional ones if they are there |
| `TopologyTheorems.AddressPasses` | src/cluster_mgr/src/config/config_base.rs:105-119 | an address whose host is not blank and whose port has 16 bits passes the check |
| `TopologyTheorems.UpdateIsReadBack` | src/cluster_mgr/src/cli/task/db_update_task.rs:66-97 | the updated fields are read back as the masters, replicas and voters in ascending group id order |
| `AssetName.RoundTripIff` | src/cluster_mgr/src/cli/cmd_base.rs:195-205 | an asset survives printing and parsing exactly when its product is one of the two, version, OS and architecture hold no dash and the store is not empty |
| `AssetName.ParsedIsPrinted` | src/cluster_mgr/src/github_release.rs:167-195 | every accepted name prints to itself |
| `AssetName.PrintedIsParsed` | src/cluster_mgr/src/github_release.rs:167-195 | the printed name of such an asset is parsed into its five fields, whatever dashes the store holds |
| `AssetName.UrlSegments` | src/cluster_mgr/src/cli/cmd_base.rs:195-205 | the segments of the download URL: the releases of the repository, the version, and the file, in which dashes part product, version, store, OS and architecture |
| `Text.DecimalPrefixIsSmaller` | src/cluster_mgr/src/cli/task/eloqstore_cloud_restore_task.rs:85-88 | a decimal that is a prefix of another is at most as large |
| `Text.ParseIff` | src/cluster_mgr/src/cli/task/cluster_config_utils.rs:42-45 | a text is an unsigned number of a type exactly when it is digits, at least one, perhaps behind a plus sign, without overflow |
| `Text.TrimTakesWhitespace` | src/cluster_mgr/src/cli/task/cluster_config_utils.rs:43 | trimming takes the white space at both ends and nothing else |
| `Text.HostPortInjective` | src/cluster_mgr/src/config/log_service.rs:300 | an address determines host and port, even when the host holds colons |

## Left out

- CloudDuplicates.RunShowsBackups: assumes, per partition, canonical decimal terms below the timestamp and a directory name without `_<timestamp>`; for other terms `CopyGoesToHighestIff` and `PlanFailsIff` say exactly when the copy still goes where it should.
- CloudTheorems.RestartConverges: with several backups of the timestamp in one partition it describes stores that list in key order; for listings in any order the choice is open (`ListingIsIrrelevantIff`), and `InterruptedRunShowsBackups` says what holds.
- CloudTasks.ExecuteDelete: assumes that every manifest key has one of the two documented names.
- DownloadTheorems.PartialIsAlwaysAPrefix: a flush is one step; since prefixes of a block keep the property, a write torn by a crash does too.
- DownloadResults.SavedIsTheContent: assumes that enough lengths are told, which `SafeExactlyIfEnoughIsTold` shows to be needed when no digest is expected; with a digest `DigestGuards` holds for every server.
- DownloadTask.Execute: errors of the local file system, progress output and the lookup of the expected digest are not modelled; the digest is an arbitrary function.
- ReconcilePromises.NothingIsDropped: assumes that the names of the structure fields themselves are not empty and hold no dot, as is the case for every field; the keys of the maps below them are arbitrary.
- ReconcileYaml.YamlTellsAll: assumes that the maps for the fields that the planner does not name hold none of the names that it does.
- ReconcilePromises.ReplanIsEmptyIff: assumes the same, and that `storage_service` is the only deployment field whose name begins with those letters.
- Reconcile.BuildPlan: configuration fields that the planner does not name are kept as a map of YAML values; the observed cluster, which is only passed through, and the wording of the change lines are left out.
- YamlDiff.Diff: mapping keys are strings; keys of other kinds are skipped by the code and absent from the model.
- MutationLock.LockIsExclusive: takes the stale check with the removal, and the write of the content, as one step each; what holds without the former is stated separately.
- NodeLists.ListsSurviveReading: assumes hosts without `|` and `,`.
- TopologyTheorems.ScalingValidity: assumes hosts without `|` and `,`, and in the fallback hosts that are not blank.
- TopologyTask.TxService.UpdateSavedTopology: saving the configuration to the database is not modelled.
- SSH, gRPC, Redis, HTTP and SQLite calls: external systems; only the bucket, file and reply state they expose is modelled.
- The paging of object listings: a listing is one step that delivers all keys or fails.
- Command-line parsing, completion, printing, progress bars and log output: user interface.
- INI, Prometheus, Grafana and Alertmanager generation: conditional key writes without a property beyond one branch.
- Start, stop, status and backup-trigger tasks: shell strings and external processes.
- `gen_log_node_ids`, `try_set_leader`, `init_members_table`, `group_member_config`: not used by the live path.
- Storage-provider checks of `validate_topology` and the state tables: easy members only.
