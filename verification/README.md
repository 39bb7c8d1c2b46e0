# A verified model of CubeFS data partitions, meta-partition balancing and directory scans

CubeFS is a distributed file system. This project models the parts of it whose correctness rests on an argument over
many steps rather than on one function, and proves that argument:

- **Data partition replicas** (`ReplicaModel`, `ReplicaRedo`, `ReplicaTruncation`, `ReplicaNode`). Random overwrites go
  through raft. Each replica stores its applied id, writes its metadata file and cuts its raft log on its own schedule,
  and replays the log after a crash. Events are single assignments and system calls, so that runs interleave them in any
  order and crash between any two.
- **Extent repair** (`HoleStream`, `RepairPlan`, `RepairConvergence`). The leader of a partition compares what the
  replicas report, plans what each has to create and to repair, and a stream of data and hole packets rebuilds what is
  missing of a tiny extent.
- **Tiny extents, members and log records** (`TinyEvents`, `TinyRaces`, `TinyExtents`, `Membership`, `RandWriteLog`).
  The circulation of tiny extent ids between queues, write packets and repair rounds, with every access to a channel or
  a map a step of its own; the lists that name the members of a partition, raft's own set of them, and the check before
  one is removed; the binary form of a random write.
- **Meta-partition balancing** (`BalanceTopology`, `BalanceBooking`, `BalancePlan`, `BalancePlanner`, `BalanceCounting`,
  `BalanceView`, `BalanceExecutor`, `BalanceTask`). The master picks partitions of overloaded meta nodes, finds
  destinations for their replicas in a topology whose memory accounts it keeps up to date, and carries the plan out as a
  task that survives crashes.
- **Directory scans** (`DirTree`, `DirScan`, `PrefixScan`, `SnapshotTree`, `SnapshotScan`). The lifecycle scanner pages
  through a directory tree, depth first or breadth first; the snapshot scanner deletes the tree it is paging through.

Code that updates fields in place is a class with methods; a loop over a Go map is a loop that takes the keys in any
order; calls whose result the code cannot know are nondeterministic. What a run achieves when none of them fails is
stated with a flag (`smooth` of the balance executor, `reachable` of the scanners), which rules failures out.
`dafny verify dfyconfig.toml` checks everything.

## Results where the code does less than it seems to promise

- **PersistMetadata can lose an overwrite.** It copies the applied id into the in-memory skip bound before the rename,
  also while the log is still being replayed, and thereby lowers that bound. A crash then leaves a stale byte. Recovery
  is exact whenever the write happens with replay at most one entry behind the ApplyID of the metadata file
  (`ReplicaRedo.CrashIsRecovered`), and for every larger distance there is a run that loses a byte
  (`ReplicaRedo.GuardIsWeakest`).
- **Giving a tiny extent back can lose it.** The channel and the map of a queue are changed one after the other without
  a lock. When a taker runs between the send and the store of a name, the name is stored for an id that is not queued,
  and the next one to give the id back drops it. Over every run this happens exactly then
  (`TinyRaces.DroppedIffTakenBetween`, `TinyEvents.LateNameLosesExtent`); no interleaving puts an id in two places
  (`TinyEvents.EveryIdInOnePlace`).
- **An emptied balance item counts as done.** When recomputing destinations fails, the item is persisted without moves;
  every later run counts it as finished. The offline step is safe exactly as long as this happens to no item but the
  first (`BalanceExecutor.OfflineOnlyWhenDone`, `BalanceExecutor.EmptiedItemCountsAsDone`). An item across zones may be
  left with some of its moves, and then counts as done with an overloaded replica in place
  (`BalanceView.UpdateMigrateDestination`, `BalanceExecutor.PartialItemCountsAsDone`).
- **Partitions with more than three replicas.** The planner always asks for three nodes when a whole partition has to
  move, and then indexes past them (`BalancePlanner.ClusterPlan.FindMigrateDestInOneNodeSet`,
  `BalancePlanner.FourReplicasPanic`).
- **Hosts that have not reported.** A node's partitions are found through their hosts, but planned from the replicas
  that have reported to this master. A node handled without error is served exactly when it has enough planned or a
  replica on an overloaded node has been reported of everything it holds
  (`BalanceCounting.PlanBuilder.CreateMetaPartitionMigratePlan`), and a plan is carried out exactly when no destination
  is an unreported host (`BalancePlan.FinishedHosts`). The planner does choose such a host
  (`BalancePlanner.UnreportedHostRefuses`).
- **The wrong node goes offline.** A plan made to take a node offline ends by taking the source of its first move
  offline. That is the node the plan was made for exactly when its replica of the first partition stays in its node set,
  or comes first of the replicas that leave with it (`BalanceView.CreateOfflineMetaNodePlan`,
  `BalancePlanner.WrongNodeOffline`).
- **Replicas charged nothing.** Replicas that are not on overloaded nodes are planned with size zero. The room kept at a
  destination falls short by exactly their sizes (`BalanceBooking.DemandShortfall`).
- **The repair sender can spin.** It sends empty packets for ever exactly when it is asked for a position in a trailing
  hole at or after the watermark (`HoleStream.SenderAdvancesIff`).
- **Some repair blocks leave a gap.** Repeated repairs make a tiny extent equal to its source for a block that is at
  least what a packet may hold, or a whole number of pages, or more than one byte and a divisor of a page
  (`HoleStream.RepairUntilEqual`). For every other block there is a source for which a capped request leaves a byte
  wrong below the watermark (`HoleStream.RepairLeavesGap`).
- **Trash directories.** A rule handles what a scan of the whole volume would give it exactly unless its prefix names a
  `.Trash` directory and leads to files with the prefix (`PrefixScan.RunRule`, `PrefixScan.TrashRule`).
- **Removal of a member.** The lists of members part exactly when a request that takes effect has the id of a member and
  an address that no member has. Raft's member set and the peers part exactly when one without force has an id that is
  not the own id of the member at its address (`Membership.Members.HandleRemove`).
- **Sizes that make a log record panic.** The room asked for wraps around or is negative for sizes below -36 and within
  36 of the largest (`RandWriteLog.Marshal`).
- The comment on raft snapshots says that ApplySnapshot has nothing to do because the log is never cut too far. That is
  true, and is proved, for a fixed membership (`ReplicaTruncation.SnapshotNeverNeeded`).

## Model

| member | source | states |
|---|---|---|
| `ReplicaRedo.EffectSplit` | datanode/partition_op_by_raft.go:224-318 | Applying a stretch of the log is applying its two parts one after the other, for any split. |
| `ReplicaRedo.AppliedWhole` | datanode/partition_raftfsm.go:37-66 | Applying an entry on extents that may already hold later entries, whole or in part, leaves extents from which the remaining entries still restore the agreed contents. |
| `ReplicaRedo.PartialRedo` | datanode/partition_op_by_raft.go:224-318 | Any subset of the bytes of an entry that is written again does not disturb what replay restores. |
| `ReplicaRedo.PartialAhead` | datanode/partition_op_by_raft.go:224-318 | The same for an entry that is begun for the first time. |
| `ReplicaRedo.StepKeepsCutSafe` | datanode/partition_raft.go:240-285 | Every event, in any interleaving and without any guard, keeps the raft log, the recorded truncation id and every pending truncation at or below the applied id on disk. |
| `ReplicaRedo.StepKeepsRedo` | datanode/partition_raftfsm.go:37-66 | Every guarded event keeps the invariant that replaying from the skip bound restores the agreed contents. |
| `ReplicaRedo.ReplayAvailable` | datanode/partition.go:281-388 | From every state of a guarded run raft can hand over every entry up to any index begun before, from the replica's own log. |
| `ReplicaRedo.CrashIsRecovered` | datanode/partition_raftfsm.go:37-66 | After any guarded run, a crash and a replay of the own log restore exactly what applying each entry once in order gives: at every position the byte of the last write that covers it, of those to extents that exist, and the original byte if there is none. |
| `ReplicaRedo.ReplicasAgree` | datanode/partition_raftfsm.go:37-66 | Two replicas with any two guarded runs over the same log agree byte for byte when caught up to the same index, and hold at every position what was written there last. |
| `ReplicaRedo.ReplayedAsWritten` | datanode/partition_op_by_raft.go:285-297 | What replaying any number of entries gives is, at every position, the byte of the last of them that covers it with a write to an extent that exists, and otherwise the original byte. |
| `ReplicaRedo.OverwriteLands` | datanode/partition_op_by_raft.go:285-297 | Once the log is replayed up to a write to an extent that exists, each of its bytes is at its place. |
| `ReplicaRedo.GuardIsWeakest` | datanode/partition.go:861-913 | For every position of replay two or more entries behind the ApplyID on disk, a metadata write there and a crash lead to stale contents. |
| `ReplicaTruncation.FindMinAppliedID` | datanode/partition_raft.go:718-728 | The least applied id and the first position that holds it. |
| `ReplicaTruncation.UpdateMinAppliedID` | datanode/partition_raft.go:942-975 | A broadcast id is at most every collected id, and positive only if every member replied, although replies are counted in eight bits. |
| `ReplicaTruncation.GroupStepKeepsInv` | datanode/partition_raft.go:832-975 | Every step of any member, report, broadcast and delivery keeps all cuts below what every member has at some time applied. |
| `ReplicaTruncation.SnapshotNeverNeeded` | datanode/partition_raftfsm.go:166-171 | In every reachable state of a group, each member's own log holds what it has to replay, and a leader's log holds what any follower lacks. |
| `ReplicaTruncation.LogGetsCut` | datanode/partition_raft.go:240-268 | A broadcast minimum that a replica has applied, and that is further than its last cut, ends with its next tick in a cut exactly there, recorded, with the applied id on disk. |
| `ReplicaNode.DataPartition.StoreAppliedIDTick` | datanode/partition_raft.go:270-277 | The timer branch is the run of its two events, or of the first alone when storing fails: the applied id is then on disk, and else the file is as it was. |
| `ReplicaNode.DataPartition.PersistMetadata` | datanode/partition.go:861-913 | The metadata write is the run of its events, with and without failing writes and renames. |
| `ReplicaNode.DataPartition.TruncateTick` | datanode/partition_raft.go:240-268 | The truncation branch, with its clamp and its failure paths, is a run of the events the invariants are proved for. When it stores and the minimum has moved on, the smaller of that minimum and the stored id is what raft is asked to cut at and what is recorded, and it is larger than before; otherwise no cut is asked for and none recorded. |
| `ReplicaNode.DataPartition.Apply` | datanode/partition_op_by_raft.go:224-318 | Applying an entry with up to twenty attempts is a run of partial writes followed by one completed application, or by a panic. Completed, a write that is not skipped has all its bytes in its extent, if that exists, any other entry leaves the extents as they were, and the applied id moves as the kind of entry says; on a closed store the applied id stays, raft's own index moves on, and loading from disk gives what it would have given without. |
| `ReplicaNode.DataPartition.LoadDataPartition` | datanode/partition.go:281-388 | Loading from disk is the reload event. |
| `HoleStream.AvailableOffset` | datanode/storage/extent.go:871-893 | The answer is an interval, inside the file and not before the offset whenever data follows. |
| `HoleStream.SenderAdvancesIff` | datanode/data_partition_repair.go:543-611 | The sender moves on exactly when data follows or the offset is below the watermark. |
| `HoleStream.HolePacket` | datanode/wrap_operator.go:1260-1277 | At a hole the packet is empty, ends on a page within the watermark and covers zeros only. |
| `HoleStream.DataPacket` | datanode/data_partition_repair.go:560-611 | At data the packet holds exactly the next bytes, at most a block, and ends on a page or at the end of the file for page-sized blocks. |
| `HoleStream.RepairRead` | datanode/data_partition_repair.go:525-614 | The sender ends, as soon as the bytes owed are sent, and each packet follows from the offset the one before reached. |
| `HoleStream.StreamIsSource` | datanode/data_partition_repair.go:543-611 | The packets expand to exactly the source's bytes from the requested offset, without gap or overlap. |
| `HoleStream.TinyExtent.Recover` | datanode/storage/extent.go:845-869 | Which packet is refused and why; an accepted one leaves everything before it untouched and moves the watermark to the next page. |
| `HoleStream.TinyExtent.RecoverPacket` | datanode/storage/extent.go:797-869 | A packet of the stream is never refused where the receiver stands. |
| `HoleStream.TinyExtent.ReceiveStream` | datanode/data_partition_repair.go:845-975 | The receiver never fails and stops on the last packet sent, with nothing unread, in spite of 32-bit sizes. |
| `HoleStream.TinyExtent.StreamRepair` | datanode/data_partition_repair.go:780-1015 | A repair keeps the local prefix, agrees with the source as far as it got, and is complete unless the request was capped; a capped one ends on a page for the blocks that allow it. |
| `HoleStream.RepairUntilEqual` | datanode/data_partition_repair.go:979-989 | Repeated repairs make a tiny extent of any size equal to its source, for every block but those of the next rows. |
| `HoleStream.StreamEnd` | datanode/data_partition_repair.go:979-989 | A repair ends with the file, or at its capped size, on a page for blocks of whole pages, blocks larger than a packet and blocks that divide a page. |
| `HoleStream.DividingBlockEnds` | datanode/data_partition_repair.go:543-611 | A request one byte short of a page is filled up to the page when the block divides it. |
| `HoleStream.OtherBlocksLeaveGap` | datanode/data_partition_repair.go:543-611 | For every other block the same source is left wrong below the new watermark by a capped request. |
| `HoleStream.RepairLeavesGap` | datanode/data_partition_repair.go:981-989 | The condition on the block is exact: with any other, one repair of an empty copy ends with a wrong byte that later repairs do not reach. |
| `RepairPlan.RepairRound.ChooseBest` | datanode/data_partition_repair.go:372-396 | For every extent the lowest-indexed replica is chosen that holds the most, of the normal region and the snapshot region after 128 MiB together; an extent is flagged exactly when some replica reports it deleted, whatever the map order. |
| `RepairPlan.RepairRound.MarkDeleted` | datanode/data_partition_repair.go:397-402 | Marking an extent deleted in the map of best extents marks it in the report it is shared with, and nowhere else. |
| `RepairPlan.RepairRound.BuildCreationTasks` | datanode/data_partition_repair.go:410-440 | Every replying replica gets one create and one repair entry for each normal extent it lacks. |
| `RepairPlan.RepairRound.BuildRepairTasks` | datanode/data_partition_repair.go:443-484 | Every smaller copy gets one repair entry, and tiny extents are sorted by whether all copies are alike. |
| `RepairPlan.RepairRound.PrepareRepairTasks` | datanode/data_partition_repair.go:372-407 | The whole plan is exact: entries for exactly the missing and smaller copies, once each, all fields from the best replica; available and broken tiny extents, ids 1 to 64, are exactly those held alike and not. |
| `RepairPlan.ShortIsRepair` | datanode/data_partition_repair.go:443-474 | Being short in the plan's working copy, where a deletion mark may hide the best entry, is the same as holding less than some replica. |
| `RepairConvergence.DoExtentStoreRepair` | datanode/partition.go:1168-1233 | A replica that carries out its task creates what is listed and streams what is too small, and leaves the rest. |
| `RepairConvergence.PlanCarriedOut` | datanode/partition.go:1168-1233 | Carrying out an exact plan gives each listed extent the best replica's size. |
| `RepairConvergence.RoundConverges` | datanode/data_partition_repair.go:372-484 | After a completed round, planning again creates and repairs nothing, and every held tiny extent is available. |
| `RepairConvergence.RepairTwice` | datanode/data_partition_repair.go:102-150 | Plan, carry out and plan again: the second plan is empty, no tiny extent is broken, and every one that was held is available. |
| `TinyEvents.StepConserves` | datanode/storage/extent_store.go:1205-1227 | No receive, delete, load, send or store changes in how many places an id is: in a channel, with a worker, or dropped. |
| `TinyEvents.StepKeepsTiny` | datanode/storage/extent_store.go:1205-1227 | Every step of any worker keeps: each id in one place, and each name in a map backed by its channel, by a taker under way, or by a late store. |
| `TinyEvents.EveryIdInOnePlace` | datanode/storage/extent_store.go:1181-1278 | In every state that any interleaving reaches from a new store, each tiny extent is in exactly one place. |
| `TinyEvents.FirstInFirstOut` | datanode/storage/extent_store.go:1205-1236 | Over every run ids leave a queue in the order in which they came, and what has not left is queued. |
| `TinyEvents.DroppedIffLate` | datanode/storage/extent_store.go:1218-1227 | In every such state giving an id back drops it exactly when its name was last stored late. |
| `TinyRaces.DroppedIffTakenBetween` | datanode/storage/extent_store.go:1205-1227 | The same said of the run alone: some worker sent the id, a taker deleted its name before that worker stored it, and nobody deleted it since. |
| `TinyEvents.InTimeDropsNothing` | datanode/storage/extent_store.go:1205-1227 | As long as names are stored in time no id is dropped. |
| `TinyEvents.LateNameLosesExtent` | datanode/storage/extent_store.go:1205-1227 | A run of eight steps of two workers loses an extent. |
| `TinyEvents.NeverBlocks` | datanode/storage/extent_store.go:1181-1202 | Whenever a worker is about to send, the channel has room, so sends never block. |
| `TinyExtents.ExtentStore.Get` | datanode/storage/extent_store.go:1205-1215 | With any steps of others between receive and delete: takes the first id of the queue, if there is one, and fails without a step otherwise. |
| `TinyExtents.ExtentStore.SendTo` | datanode/storage/extent_store.go:1218-1227 | With any steps of others between load, send and store: the id is sent and named, or dropped, exactly when its name was stored late. |
| `TinyExtents.ExtentStore.Prepare` | datanode/wrap_prepare.go:132-141 | A tiny write takes the first available id and has it until it gives it back. |
| `TinyExtents.ExtentStore.ReleaseExtent` | datanode/wrap_post.go:47-65 | However often it is called for a packet the id is given back once, to the queue the outcome names, and dropped exactly when its name was stored late. |
| `TinyExtents.ExtentStore.MoveAllToBrokenTinyExtentC` | datanode/storage/extent_store.go:1250-1258 | Up to the given number of ids are taken from the available queue and given to the broken one, each once; fewer only when the available queue is found empty. |
| `TinyExtents.ExtentStore.BrokenTinyExtents` | datanode/data_partition_repair.go:355-370 | A round takes ten broken ids, or 64 when no more than five are available, or else all that are queued, and has them. |
| `TinyExtents.ExtentStore.SendAllTinyExtentsToC` | datanode/data_partition_repair.go:340-353 | At the end of a round every reported id is given back once, to the queue of its list, and an unreported one stays where it is. |
| `Membership.CanRemoveRaftMember` | datanode/partition_raft.go:168-208 | A present peer may go without force exactly when the members left that are up are a majority of the smaller group, for every size and parity. |
| `Membership.DownWithoutIs` | datanode/partition_raft.go:182-189 | The members that are down are counted without the one to be removed, however often it is named. |
| `Membership.RemovalAgrees` | datanode/partition_raft.go:476-533 | Hosts and peers still agree after a removal exactly when the address taken out is the peer's own. |
| `Membership.CorrectPeer` | datanode/wrap_operator.go:1625-1650 | The corrected request names a peer that has the requested address, if there is one; its id is the requested one exactly when no member at that address has another. |
| `Membership.Members.AddRaftNode` | datanode/partition_raft.go:428-473 | Adding keeps the multiset of hosts equal to that of the peers' addresses, and replicas equal to hosts. |
| `Membership.Members.HandleAdd` | datanode/wrap_operator.go:1520-1552 | A request with an id adds it to the peers and to raft's members, which stay equal; one with id zero changes nothing. |
| `Membership.Members.RemoveRaftNode` | datanode/partition_raft.go:476-533 | Removing keeps it if and only if the request carries the peer's own address. |
| `Membership.Members.HandleRemove` | datanode/wrap_operator.go:1604-1692 | From request to change: a member is removed exactly when forced, or with an id other than zero, automatically or from a majority; exactly when the lists of members agree afterwards, and exactly when raft's members are still the peers. |
| `RandWriteLog.Marshal` | datanode/partition_op_by_raft.go:62-88 | The frame is 33 bytes and the data: the version, the opcode, and extent, offset, size and checksum, big endian, at their places; exactly for sizes below -36 or within 36 of the largest there is none. |
| `RandWriteLog.FirstByteWeighs` | datanode/partition_op_by_raft.go:66-84 | In the fields of a frame the first byte is the most significant one. |
| `RandWriteLog.Unmarshal` | datanode/partition_op_by_raft.go:91-120 | Field by field consumption of the buffer reads the fields at their places and then size bytes, those of the frame as far as it goes and zeros after that; short input and negative sizes are told apart. |
| `RandWriteLog.RoundTrip` | datanode/partition_op_by_raft.go:62-120 | Every record comes back: with the first size bytes of its data when it has as many, and otherwise with all of it and zeros up to the size; it fails exactly when the size is negative, or positive with no data at all. |
| `RandWriteLog.FormsApart` | datanode/partition_raftfsm.go:38-62 | A binary record takes the binary path, and no command that begins with a non-zero byte, such as JSON, does. |
| `BalanceTopology.PickNodes` | master/cluster_balance.go:904-936 | Walking a node set in any order finds distinct nodes exactly when there are enough that are not excluded and have, in both accounts, more than 3 GiB and more than twice the size free. |
| `BalanceTopology.GetMigrateDestAddr` | master/cluster_balance.go:886-939 | Succeeds exactly when the node set exists and has enough eligible nodes. |
| `BalanceTopology.GetMigrateAddrExcludeNodeSet` | master/cluster_balance.go:941-969 | Succeeds exactly when another node set of the zone has enough. |
| `BalanceTopology.GetMigrateAddrExcludeZone` | master/cluster_balance.go:971-996 | Succeeds exactly when a node set of another zone has enough. |
| `BalanceBooking.ChargedFits` | master/cluster_balance.go:764-797 | Charging an eligible node adds twice the size to what is used in both 64-bit accounts and takes it from what is free, without wrapping around, and a node left listed is below the middle pressure. |
| `BalanceBooking.BookedAt` | master/cluster_balance.go:764-797 | One more charge keeps the account: each node is listed, with exactly its demand added, if and only if that leaves it below the middle pressure. |
| `BalanceBooking.ChargedValid` | master/cluster_balance.go:792-795 | Deleting a node keeps the count of its node set and all keys right. |
| `BalanceBooking.PlanFits` | master/cluster_balance.go:764-797 | Every node of the original topology has room for all the moves planned to it together, in both accounts. |
| `BalanceBooking.MovesToBase` | master/cluster_balance.go:764-797 | Every charged move, of any size, carries the address of the node of the original topology that is charged for it. |
| `BalanceBooking.DemandShortfall` | master/cluster_balance.go:780-789 | What is charged to a node falls short of the sizes of the replicas planned to it by exactly those that are recorded with no size. |
| `BalancePlan.ExcludesAll` | master/cluster_balance.go:799-806 | Exactly the addresses of the reported replicas and of the destinations planned so far are excluded. |
| `BalancePlan.ExtendedSound` | master/cluster_balance.go:799-806 | Adding moves of unplanned replicas to addresses outside the exclusion list keeps sources distinct, destinations distinct, and destinations off the partition's hosts. |
| `BalancePlan.StepRetains` | master/cluster_balance.go:587-620 | Planning one more node set keeps zones, keeps the replicas of a node set together, and leaves no node set half planned. |
| `BalancePlan.OverloadMoves` | master/cluster_balance.go:860-870 | Moving the overloaded replicas at home is a sound plan with a single target node set. |
| `BalancePlan.OriginalMoves` | master/cluster_balance.go:873-884 | Moving every replica elsewhere is a sound plan with a single target node set. |
| `BalancePlan.MigrateAllExact` | master/cluster_task.go:99-200 | Carrying out sound moves takes exactly the planned sources from the hosts and adds exactly the destinations. |
| `BalancePlan.MigratedIff` | master/cluster_task.go:113-130 | Sound moves are all carried out exactly when every source is a host and no destination is. |
| `BalancePlan.FinishedHosts` | master/cluster_balance.go:560-620 | A planned partition's moves go through exactly when the moved replicas are hosts and no destination is an unreported host; then the hosts keep their number, are all different, and none of the overloaded ones is left. |
| `BalancePlan.ReportedHosts` | master/cluster_balance.go:560-620 | They go through when every host has been reported and nothing else has. |
| `BalancePlanner.ClusterPlan.UpdateLowPressureNodeTopo` | master/cluster_balance.go:764-797 | Fails only for an unlisted destination, and otherwise keeps the account and the topology right. |
| `BalancePlanner.ClusterPlan.FillOne` | master/cluster_balance.go:720-750 | A planned source gets a new destination, an unplanned one a new move, and the move is charged. |
| `BalancePlanner.ClusterPlan.FillMigratePlanArray` | master/cluster_balance.go:719-753 | All sources get their destinations and are charged, or the index runs out of range exactly when there are fewer destinations. |
| `BalancePlanner.ClusterPlan.CreateMigratePlanInNodeSet` | master/cluster_balance.go:633-668 | Succeeds exactly when the own node set has enough eligible nodes. |
| `BalancePlanner.ClusterPlan.CreateMigratePlanExcludeNodeSet` | master/cluster_balance.go:681-717 | Succeeds exactly when another node set of the zone has. |
| `BalancePlanner.ClusterPlan.PlanNodeSet` | master/cluster_balance.go:602-616 | The overloaded replicas of a node set stay in it exactly when it has enough nodes; otherwise all its replicas leave together exactly when another node set of the zone has, and else nothing changes. |
| `BalancePlanner.ClusterPlan.FindMigrateDestRetainZone` | master/cluster_balance.go:587-620 | Keeps every move in its zone, sends it to the address of the node that is charged, and covers every overloaded replica, or names a replica that neither its node set nor its zone can take. |
| `BalancePlanner.ClusterPlan.FindMigrateDestInOneNodeSet` | master/cluster_balance.go:808-858 | Each of its four outcomes happens exactly under its condition; success is a sound plan with a single target node set, to the addresses of the nodes that are charged, of the overloaded replicas in order at home and of all replicas in order elsewhere. |
| `BalancePlanner.FourReplicasPanic` | master/cluster_balance.go:840-857 | A partition of four replicas with no node at home and three elsewhere makes the planner panic. |
| `BalancePlanner.UnreportedHostRefuses` | master/cluster_balance.go:799-858 | For a partition with one of three hosts reported the planner chooses another of them, and the migration is refused. |
| `BalancePlanner.WrongNodeOffline` | master/cluster_balance.go:840-857 | A partition that leaves its node set as a whole makes its first replica's node the one that goes offline, instead of the overloaded one. |
| `BalancePlanner.ClusterPlan.FindMigrateDestination` | master/cluster_balance.go:560-585 | The kept plan is a prefix of completely planned partitions, to the addresses of the nodes charged for them, cut only where a partition cannot be placed; all charges are those of the plan and of that partition. |
| `BalanceCounting.PlanBuilder.UpdateMetaReplicaPlanCount` | master/cluster_balance.go:541-558 | Every overloaded node is credited as often as the item lists it. |
| `BalanceCounting.PlanBuilder.BuildItem` | master/cluster_balance.go:448-478 | An item lists the reported replicas in order, each with its place, and exactly those on overloaded nodes as overloaded; the size of such a one is its partition's share of the node's inodes, times what the node uses, rounded down, and of any other zero. An unknown node is an error. |
| `BalanceCounting.RecordsFit` | master/cluster_balance.go:541-558 | The sizes recorded for partitions that together have no more inodes than their overloaded node add up to no more than it uses. |
| `BalanceCounting.PlanBuilder.AddMetaPartitionIntoPlan` | master/cluster_balance.go:433-497 | Unless a reported replica is on an unknown node, the node has its estimate planned, or each of its partitions is planned or has no reported overloaded replica; new items are its partitions with one, and no more than needed; nothing planned is taken back. |
| `BalanceCounting.PlanBuilder.CreateMetaPartitionMigratePlan` | master/cluster_balance.go:376-409 | No partition is planned twice, every node's count is the number of items that list it, and a node handled without error is served exactly when it has its estimate or an overloaded replica has been reported of every partition it hosts. |
| `BalanceCounting.UnreportedIsSkipped` | master/cluster_balance.go:476-478 | A partition of which nothing has been reported is passed over, and its node is not served. |
| `BalanceCounting.BuiltValid` | master/cluster_balance.go:433-497 | Every item meets what the search for destinations relies on. |
| `BalanceView.GetMetaNodePressureView` | master/cluster_balance.go:305-332 | From overloaded nodes to a finished plan: no partition twice, every item with a reported overloaded replica and sound moves, and every host that carrying out an item adds is the address of a node with room for all that is charged to it. |
| `BalanceView.CreateOfflineMetaNodePlan` | master/cluster_balance.go:1498-1556 | The node that the finished plan takes offline is the requested one exactly when its replica of the first partition stays in its node set or comes first of those that leave. |
| `BalancePlanner.FirstIs` | master/cluster_balance.go:1583-1584 | Which replica moves first, and so which node goes offline, for every topology and item. |
| `BalanceView.UpdateMigrateDestination` | master/cluster_balance.go:998-1024 | Planning an item again begins with the same replica as planning it first would in that topology; one that fails for lack of room leaves no move in one node set, and across zones the moves found, none of them for some overloaded replica. |
| `BalanceExecutor.StepKeepsOnce` | master/cluster_balance.go:1054-1184 | Every step, crash, failed or unnoticed update keeps: a begun item shows it on disk, and a move is migrated only in the run that began its item. |
| `BalanceExecutor.MigratedAtMostOnce` | master/cluster_balance.go:1054-1184 | Over any number of runs and crashes no item is begun twice and no move is migrated twice. |
| `BalanceExecutor.OfflineOnlyWhenDone` | master/cluster_balance.go:1558-1591 | As long as no item but the first loses all its moves, the offline step is reached only with every move done, and the persisted done count never exceeds the finished items. |
| `BalanceExecutor.EmptiedItemCountsAsDone` | master/cluster_balance.go:808-819 | Losing the moves of any other item, in any plan, leads to the offline step with no move carried out. |
| `BalanceExecutor.PartialItemCountsAsDone` | master/cluster_balance.go:1054-1184 | An item stored with any number of moves after a failed replanning counts as done when those are carried out. |
| `BalanceTask.Executing.RunMove` | master/cluster_balance.go:1101-1178 | A move is persisted as running, migrated once, and persisted as done; every way out of the loop body, with any outcome of its calls, is a run of the executor's events. |
| `BalanceTask.Executing.VerifyDestinations` | master/cluster_balance.go:1291-1314 | An item may come out with any number of fresh moves, also when planning again fails and the item is stored. |
| `BalanceTask.Executing.RunMoves` | master/cluster_balance.go:1101-1179 | An item is counted once, after all its moves are done and each has been migrated; no other item changes. |
| `BalanceTask.Executing.RunItem` | master/cluster_balance.go:1054-1184 | An item that has begun is passed over untouched; when no call fails and no destination has filled up, all moves of any other are migrated and done. |
| `BalanceTask.Executing.DoMetaPartitionBalanceTask` | master/cluster_balance.go:1026-1204 | A whole run from loading the plan to the offline check is a run of those events, and gets to the offline step only if the count is the number of items and the first has moves. When no call fails and no destination has filled up, it migrates every move of every item that had not begun, once, stores them as done, and takes the node of a new offline plan offline. |
| `DirTree.BeforeMarker` | metanode/partition_fsmop_dentry.go:457-495 | Reading from the name of an entry starts at that entry. |
| `DirTree.LessIs` | metanode/dentry.go:698-702 | Names are in dictionary order: a prefix comes first, and else the first character that differs decides. |
| `DirTree.ListedExactly` | lcnode/lc_scanner.go:601-677 | A file is listed exactly once, under the path its names spell, if they lead to it without passing a trash directory, and not at all otherwise. |
| `DirScan.NextPage` | lcnode/lc_scanner.go:619-642 | The next page is the entries after the marker, whatever the page limit from two up. |
| `DirScan.MarkerAdvances` | lcnode/lc_scanner.go:669-675 | A short page is the last; otherwise the next marker is the last entry read. |
| `DirScan.LcScanner.DepthFirst` | lcnode/lc_scanner.go:601-677 | Ends, and sends exactly the files below the directory, but for those lost to read errors it counts, of which there are none when no call fails. |
| `DirScan.LcScanner.BreadthFirst` | lcnode/lc_scanner.go:679-745 | Ends, and splits the files below the directory between the file channel and the directories it queues. |
| `DirScan.LcScanner.HandleDirChan` | lcnode/lc_scanner.go:354-388 | Taking queued directories in any order and either way ends with every file sent exactly once. |
| `DirScan.LcScanner.Scan` | lcnode/lc_scanner.go:214-256 | A scan without read errors sends exactly the listed files, and one in which no call fails has none. |
| `PrefixScan.FindPrefixInode` | lcnode/lc_scanner.go:269-318 | The start directory is the one all components but the last lead to. |
| `PrefixScan.PrefixExact` | lcnode/lc_scanner.go:269-352 | A file with the prefix is sent by a scan from the prefix directory as often as by a scan of everything, unless a trash directory is on the way. |
| `PrefixScan.RuleExact` | lcnode/lc_scanner.go:269-352 | The same for the prefix as the rule has it, including prefixes that lead nowhere and empty components. |
| `PrefixScan.PrefixIntoTrash` | lcnode/lc_scanner.go:601-608 | The exception is real. |
| `PrefixScan.StartPath` | lcnode/lc_scanner.go:236-245 | Joining the components gives the path of the start directory. |
| `PrefixScan.HandleFileChan` | lcnode/lc_scanner.go:320-352 | Exactly the sent files with the prefix are handled. |
| `PrefixScan.RunRule` | lcnode/lc_scanner.go:214-352 | Without read errors a rule handles exactly the files with its prefix that a scan from its directory sends, and these are the files of a full scan with the prefix exactly when no trash directory is on the way or no file there has the prefix. |
| `PrefixScan.TrashRule` | lcnode/lc_scanner.go:601-608 | A rule for the trash directory, run on a concrete tree, handles a file that a full scan does not list. |
| `SnapshotTree.PageAfter` | lcnode/snapshot_scanner.go:224-255 | Where the next page starts when any of the entries before the marker, or the marker itself, have been deleted. |
| `SnapshotTree.PostOrderAll` | lcnode/snapshot_scanner.go:286-318 | The order of round two holds every directory once. |
| `SnapshotTree.PostOrderNested` | lcnode/snapshot_scanner.go:286-318 | Right before a directory come all the directories below it, in the same order. |
| `SnapshotTree.HeldExactly` | lcnode/snapshot_scanner.go:257-295 | A deletion, by the inode of a directory and a name, is among those of a tree exactly when names lead from the root to a directory with that inode that holds a file, or a directory, of that name; and where no two directories have the same inode, it is there once. |
| `SnapshotTree.CleanHolds` | lcnode/snapshot_scanner.go:257-284 | Without its files a tree holds no file and every directory where it was. |
| `SnapshotTree.OnlyDirsAre` | lcnode/snapshot_scanner.go:370-400 | A listing without its files has each of its directories as often as before, and nothing else. |
| `SnapshotScan.NextPage` | lcnode/snapshot_scanner.go:219-255 | Whatever is left of the entries before the marker, no entry is skipped and none is read twice. |
| `SnapshotScan.SnapshotScanner.DepthFirstFiles` | lcnode/snapshot_scanner.go:211-295 | In round one every file below the directory is deleted once or given up after a failed call, which is counted; without errors exactly the directories stay, and when no call fails there are none. |
| `SnapshotScan.SnapshotScanner.BreadthFirst` | lcnode/snapshot_scanner.go:320-411 | The directory's own files are deleted once each and its directories queued; a failed call gives up the rest of it and is counted. |
| `SnapshotScan.SnapshotScanner.ScanFiles` | lcnode/snapshot_scanner.go:162-209 | Round one ends with every file deleted once or given up, in any order of directories and either way, and with none given up unless an error was counted. |
| `SnapshotScan.SnapshotScanner.DepthFirstDirs` | lcnode/snapshot_scanner.go:211-318 | Round two deletes directories below in post order, leaving some out only when an error was counted. |
| `SnapshotScan.SnapshotScanner.Start` | lcnode/snapshot_scanner.go:128-149 | Both rounds with any calls failing: only files and directories of the tree are deleted, each under the inode of its directory, none twice where inodes differ, and directories in post order; a run that counts no error has deleted every file and then every directory, each after all below it. When no call fails no error is counted. |

## Left out

- Replica runs with members added or removed, or with two replicas on one IP address: applied ids are matched by address, and a new member is filled by repair.
- A minimum applied id of zero that reaches a follower is delivered in the model; the code drops it, which the invariants cover.
- RepairConvergence.RoundConverges: is stated for extents without a snapshot region and for a round in which every replying replica completes its task, because neither a snapshot region nor an interrupted task is repaired in one round.
- Repair of normal extents is modelled at the level of sizes, not of bytes.
- CRC values, connections and packet headers: packets are values, and a transfer either happens or is a failed step.
- Floating-point ratios are real numbers, and a replica's share of its node's memory is an exact quotient rounded down. That twice that share fits in 64 bits is a condition, as is that a node set lies in one zone.
- GetLowMemPressureTopology and MetaNodeRecord, which copy meta nodes into the topology: the planner starts from any topology whose nodes use no more than they have, are below the middle pressure and are filed under their own id, node set and zone.
- CalculateMetaNodeEstimate, which only computes a number, and the sort of a node's partitions by inode count: any estimate and any order are allowed.
- Overlapping executors after a stop followed by a run: the code does not exclude them.
- Interleaving of two workers inside one directory of a scan: directories are handled one at a time, in any order. ENOENT for a directory that exists is not modelled.
- A deletion that reports an error and takes effect all the same: a failed call of the snapshot scanner leaves the entry.
- The text of JSON commands: only that it does not begin with a zero byte is used.
- Tiny extents taken by snapshot appends, which are not given back: such an id stays with its worker, as an unreported one. A packet gives back the id it took: a write that arrives with the id of a tiny extent and fails before it takes one is not modelled.
- Membership changes that raft refuses or that are forwarded to another leader: the request is handled where it takes effect.
- ReplicaNode.DataPartition.Apply: leaves out entries that try to append and are told to try another extent or that the bytes exist already; the first count as written with no bytes and the second leave the applied id alone, as a JSON command does.
- A record so large that its room cannot be allocated: only the sign of the room asked for is modelled.
- BalancePlan.FinishedHosts: is about the changes of the hosts; that a migration may also fail for reasons of raft or of its nodes is a failed move of the executor.
- Authentication, HTTP handlers, the command line, the FUSE client, erasure-coded storage and rate limits are not part of this model.
