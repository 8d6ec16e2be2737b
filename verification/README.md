# Verification of pikamgr

This project models, in Dafny, the two layers of pikamgr that are worth proving: its own control plane, which
manages groups, sentinels and load-balancer backends, and the parts of the Redis 3.2.11 it ships that carry protocols
or delicate arithmetic.

- **Redis Cluster** (`ClusterEpoch`, `ClusterElection`, `ClusterClaims`, `ClusterSlots`, `ClusterBitmap`). Runs are
  arbitrary interleavings over a network that may delay, reorder and lose packets, and repeat them, acks of votes
  excepted. Collision resolution always stops and ends in distinct epochs; at most one slave wins an epoch; slot claims
  are confluent on every settled slot; the slot tables of a node always agree.
- **Topom** (`TopomModel`, `TopomPromotion`, `TopomRuns`, `TopomFlags`, `TopomEffects`, `TopomService`,
  `Gslb`). The mappers hand out the very objects they keep in memory, so that an object edited in place stays edited
  when its write fails, while a new one is dropped; the coordinator's records are a second store, and a restart reads
  them. Every operation may stop after any write, and a write that returns an error may or may not have been applied.
  What an operation leaves is spelled out field by field (`TopomEffects`). Promotion is crash-safe, servers and
  ports are unique and the sentinel flag is sound in memory over all runs, and the load-balancer configuration settles
  after two refreshes; what holds of the records is proved with its exact condition.
- **Append-only file** (`AofCodec`, `AofBuffer`, `AofServer`, `AofRuns`). Encoder and truncation-tolerant loader undo
  each other; flushes conserve the fed history; a run of the server with background rewrites never loses, reorders or
  misplaces a command.
- **Bits** (`Words`, `BitString`, `Bitfield`, `BitfieldOverflow`, `BitfieldCommand`, `BitCount`, `BitPos`, `BitOp`,
  `Crc32`). Machine words are naturals with C's operations defined bit by bit, and every wrap-around is written out.
  The fast word-at-a-time code equals the per-bit specification for every input.

`Options` and `Collections` hold what several components share. Classes and methods follow the program's loops,
branches and updates in place; each is proved against a function that the lemmas are about. Check the project with
`dafny verify dfyconfig.toml`.

Some properties turned out to hold only under a condition, which is proved to be exact:

- Votes are reset when an election is scheduled, not when it is requested, so that an election may open with acks of an
  older one. Two slaves win one epoch only if such acks make up for the overlap of two majorities, a bound that is met
  for every number of voters (`TwoWinnersNeedLateAcks`, `LateAcksLetTwoWin`).
- Memory and records drift apart when a write fails. The records stay unique if and only if no event records a group
  that clashes with the record of another; the guards look at memory only (`RecordsUniqueIffCareful`,
  `LostRemovalDuplicatesServer`, `AmbiguousCreateDuplicatesPort`). The recorded sentinel flag has such a condition too
  (`RecordsSoundIffFlagCareful`, `LostAdditionBreaksFlag`).
- `outOfSyncBySentinel` treats a failed read as "no sentinels", so the flag is sound only while the sentinels can be
  read (`UnreadAddBreaksFlag`, `UnreadDelBreaksFlag`, `UnreadAddition`, `UnreadRemoval`). `Info` of the mapper that the
  program ships never fails; this needs another implementation of the SentinelMapper interface.
- `AddGSLB` edits the record in memory before it updates it, and an update equal to memory is not written
  (`RecordedIffChanged`, `AddedServerIsNotRecorded`).
- The comment above the signed overflow check says that its distances cannot overflow when they are used. For a SET
  far below the range the distance to the maximum does; the model follows the code, with the signed subtraction
  wrapping around as compilers make it (`CheckSigned`, `FarBelowIsMisjudged`).
- Slot claims are confluent exactly on settled slots. A slot is not settled if its first owner may keep it by a newer
  epoch alone, though it does not surely claim it, or if the claim that would win is made by an UPDATE that another
  packet of the node may cause to be dropped (`OrderFreeIffSettled`, `TornSlot`, `WaveringSlot`).
- Switching to a rewritten append-only file is right only if its child's last read left nothing in the pipe, as it does
  unless the read fails (`SwitchIsRightIffReadOut`, `PipeIsEmptyAtSwitch`, `FailedReadLosesCommand`).

## Model

| member | source | states |
|---|---|---|
| ClusterEpoch.Server.HandleConfigEpochCollision | extern/redis-3.2.11/src/cluster.c:1034-1049 | On an equal config epoch the master of the smaller name, and only it, takes currentEpoch + 1; nothing else changes. |
| ClusterEpoch.Server.ProcessPacket | extern/redis-3.2.11/src/cluster.c:1602-1613 | A packet raises currentEpoch and the sender's config epoch to what its header says, never lowers them, then handles the collision. |
| ClusterEpoch.ReceiveEffect | extern/redis-3.2.11/src/cluster.c:1602-1613 | Under any stale packet no known epoch falls, no epoch passes currentEpoch, and a node moves only away from an equal epoch of a greater node. |
| ClusterEpoch.ReceivedKnowledge | extern/redis-3.2.11/src/cluster.c:1602-1613 | Every packet raises currentEpoch and the sender's epoch to what its header says if they are below, an UPDATE also that of the node it is about, and nothing else, but for a collision. |
| ClusterEpoch.RunKeepsEpochInv | extern/redis-3.2.11/src/cluster.c:1875-1880 | In every run each node's currentEpoch is at least every config epoch it knows, and no one knows more of a node than the node itself. |
| ClusterEpoch.SentEpochWasHeld | extern/redis-3.2.11/src/cluster.c:1602-1613 | Every epoch in a packet, however late it arrives, was once the epoch of its sender. |
| ClusterEpoch.PastEpochsWereDisplaced | extern/redis-3.2.11/src/cluster.c:1034-1049 | Every epoch a node gave up was held by a node of a greater name. |
| ClusterEpoch.MoveBound | extern/redis-3.2.11/src/cluster.c:1034-1049 | Under any order and staleness of messages the master of the k-th greatest name moves at most 2^(k-1) - 1 times. |
| ClusterEpoch.ResolutionStops | extern/redis-3.2.11/src/cluster.c:1034-1049 | All k greatest masters together move at most 2^k - 1 - k times: resolution always stops. |
| ClusterEpoch.WouldMoveIffCollision | extern/redis-3.2.11/src/cluster.c:1875-1880 | An up-to-date message moves its receiver exactly when receiver and sender collide and the receiver has the smaller name. |
| ClusterEpoch.QuiescentIffDistinct | extern/redis-3.2.11/src/cluster.c:1034-1049 | In every reachable state no up-to-date message moves anyone if and only if all config epochs are pairwise distinct. |
| ClusterElection.Master.HandleAuthRequest | extern/redis-3.2.11/src/cluster.c:2467-2567 | A vote is granted exactly under the conditions of the voter's checks, and the voter's epochs change only by a granted vote or a greater currentEpoch. |
| ClusterElection.Slave.HandleAck | extern/redis-3.2.11/src/cluster.c:1929-1941 | An ack counts exactly if its sender is a master serving slots and its epoch is at least the epoch of the slave's election. |
| ClusterElection.Slave.HandleFailover | extern/redis-3.2.11/src/cluster.c:2705-2866 | Role, failure, data age and manual failover decide whether it runs at all; votes are reset when an election is scheduled, not when the request is sent; the rank delays the start; a slave wins exactly with size/2 + 1 counted acks in time, and then has at least the election's epoch. |
| ClusterElection.FreshIff | extern/redis-3.2.11/src/cluster.c:2742-2764 | The data is too old exactly if a validity factor is set and the age exceeds the node timeout times the factor plus one, plus the ping period. |
| ClusterElection.GrantedEpochsIncrease | extern/redis-3.2.11/src/cluster.c:2467-2567 | In every run a voter grants each vote in a greater epoch than all its earlier ones. |
| ClusterElection.CountedAckIsCurrent | extern/redis-3.2.11/src/cluster.c:1929-1941 | An ack on its way from a serving master counts exactly if it carries the epoch of the candidate's current election. |
| ClusterElection.CountIsEarned | extern/redis-3.2.11/src/cluster.c:1929-1941 | In every run a candidate's count is at most the acks it received from voters that granted it the present epoch, plus the count its election opened with. |
| ClusterElection.WinnersHaveMajorities | extern/redis-3.2.11/src/cluster.c:2837-2866 | In every run a winner of an epoch holds the votes of a majority in that epoch, less the count that its election opened with. |
| ClusterElection.TwoWinnersNeedLateAcks | extern/redis-3.2.11/src/cluster.c:2467-2866 | In every run, two slaves win one epoch only if the counts their elections opened with add up to at least twice the quorum less the number of voters. |
| ClusterElection.ElectionSafety | extern/redis-3.2.11/src/cluster.c:2467-2866 | If elections open with a count of zero, at most one slave wins in any epoch, over every run with requests delayed, repeated, reordered and lost, and acks delayed, reordered and lost. |
| ClusterElection.ElectionOpensWithLateAcks | extern/redis-3.2.11/src/cluster.c:2774-2847 | The count an election opens with is the number of acks counted between its scheduling and its request, though no vote of its epoch exists at that point. |
| ClusterElection.LateAcksLetTwoWin | extern/redis-3.2.11/src/cluster.c:2774-2847 | The bound is met for every number of voters: a run in which two slaves win the same epoch with just that many late acks, one if the voters are odd in number and two if even. |
| ClusterClaims.OwnerChangeRaisesEpoch | extern/redis-3.2.11/src/cluster.c:1443-1531 | Whatever message is handled, an owner-to-owner change gives the slot to the node it is about and strictly raises the known epoch of its owner; no slot loses its owner. |
| ClusterClaims.UnknownIsZero | extern/redis-3.2.11/src/cluster.c:652-690 | A node of which no epoch is known counts as one of epoch 0. |
| ClusterClaims.ReceivedEpochs | extern/redis-3.2.11/src/cluster.c:1602-1613 | After any deliveries of PINGs, UPDATEs and other packets the receiver knows exactly the published epoch of each node they are about, and everyone else's as before. |
| ClusterClaims.OwnerIsBest | extern/redis-3.2.11/src/cluster.c:1443-1531 | After any deliveries each slot belongs to its first owner or to a node whose claim was looked at, and no claim that was looked at is newer; a dropped UPDATE is not looked at, and nothing said of the receiver claims a slot. |
| ClusterClaims.SureTakesEffect | extern/redis-3.2.11/src/cluster.c:1954-1963 | A claim made by PING, or by all that is heard of a node under an epoch not known at first, is looked at in every order. |
| ClusterClaims.EffectiveIsPossible | extern/redis-3.2.11/src/cluster.c:1954-1963 | Only claims made by PING, or by UPDATE under an epoch not known at first, are ever looked at. |
| ClusterClaims.SameMessagesSameTable | extern/redis-3.2.11/src/cluster.c:1443-1531 | Two deliveries of the same PINGs, UPDATEs and other packets, in any order and with any repeats, leave the same slot table if every slot is settled. |
| ClusterClaims.SameMessagesSameOwner | extern/redis-3.2.11/src/cluster.c:1443-1531 | The same for one slot: it is settled unless its first owner, known at first with an epoch below a sure claim, publishes one above all sure claims without surely claiming the slot, or another node claims it above them, but only possibly. |
| ClusterClaims.UnsettledSlotDependsOnOrder | extern/redis-3.2.11/src/cluster.c:1443-1531 | The exception is exact: for every slot that is not settled two orders of the same messages give different owners. |
| ClusterClaims.OrderFreeIffSettled | extern/redis-3.2.11/src/cluster.c:1443-1531 | Hence the owner of a slot is independent of order and repetition if and only if the slot is settled. |
| ClusterClaims.TornSlot | extern/redis-3.2.11/src/cluster.c:1443-1531 | A slot that is not settled: its owner publishes epoch 3 and no slots, another node claims it under epoch 2, and the order of the two decides who has it. |
| ClusterClaims.WaveringSlot | extern/redis-3.2.11/src/cluster.c:1960 | Another one: an UPDATE gives a free slot to a node, unless a packet of that node has made its epoch known before. |
| ClusterSlots.Cluster.AddSlot | extern/redis-3.2.11/src/cluster.c:3419-3424 | Refuses an owned slot; otherwise owner table and bitmap gain the slot together. |
| ClusterSlots.Cluster.DelSlot | extern/redis-3.2.11/src/cluster.c:3429-3436 | Refuses a free slot; otherwise table and bitmap lose it together. The assertion that the bit was set never fails. |
| ClusterSlots.Cluster.DelNodeSlots | extern/redis-3.2.11/src/cluster.c:3440-3451 | Frees exactly the node's slots, as many as its population count said. |
| ClusterSlots.Cluster.UpdateSlotsConfigWith | extern/redis-3.2.11/src/cluster.c:1443-1531 | A claim rebinds exactly the slots that pass by epoch and are not being imported; the receiver follows the sender exactly if its master lost its last slot to it, and purges its lost slots with keys otherwise. |
| ClusterSlots.AllRebound | extern/redis-3.2.11/src/cluster.c:1443-1503 | Slot by slot: the claimant gets a slot exactly if it claims it, it is not being imported, and it was free or its owner's epoch is older; every other slot keeps its owner. |
| ClusterSlots.TookFromIff | extern/redis-3.2.11/src/cluster.c:1486-1490 | A slot counts as taken from a node exactly if it had it before and has it no more. |
| ClusterSlots.TakenFromIs | extern/redis-3.2.11/src/cluster.c:1478-1485 | The slots to purge are, in ascending order and once each, those with keys that this node lost. |
| ClusterSlots.Cluster.SetMaster | extern/redis-3.2.11/src/cluster.c:3641-3657 | A node without slots becomes a slave; the migrating and importing tables are closed if it was a master. |
| ClusterSlots.Cluster.HearFrom | extern/redis-3.2.11/src/cluster.c:1768-1801 | A sender that turned slave gives up all its slots; a master's header updates its epoch. |
| ClusterSlots.HeardIs | extern/redis-3.2.11/src/cluster.c:1606-1801 | The sender's epoch only rises; it is a master exactly if it names none; a slave's master is the one it names, if that is known, else the old one. |
| ClusterSlots.Cluster.ProcessPing | extern/redis-3.2.11/src/cluster.c:1768-1829 | PING and PONG of a master rebind exactly the slots that pass, slots being imported excepted, make this node follow the sender or purge its lost slots as the claim demands, and with none imported act as the pure claim; those of a slave rebind nothing, but a master turned slave loses its slots. |
| ClusterSlots.Cluster.ProcessUpdate | extern/redis-3.2.11/src/cluster.c:1954-1975 | An UPDATE of no greater epoch changes nothing; otherwise it acts as the claim it carries, and one about the receiver itself makes it a master under the new epoch and moves no slot. |
| ClusterSlots.Cluster.ProcessHeader | extern/redis-3.2.11/src/cluster.c:1602-1613 | The header of any packet raises the recorded epoch of its sender, never lowers it, and does nothing else. |
| ClusterSlots.Cluster.Process | extern/redis-3.2.11/src/cluster.c:1568-1975 | With nothing being imported, each handler changes the slot table and the known epochs exactly as `ClusterClaims.Handle` does, the node staying a master or the slave of a known one. |
| ClusterSlots.Cluster.ProcessAll | extern/redis-3.2.11/src/cluster.c:1568-1975 | So does any sequence of PINGs of masters, UPDATEs and other packets: the table is the one that the confluence results are about, and all tables agree throughout. |
| ClusterSlots.Cluster.SetSlotMigrating | extern/redis-3.2.11/src/cluster.c:3978-4003 | Marks a slot of this node as leaving for a known node; refused to slaves, for other slots and unknown nodes. |
| ClusterSlots.Cluster.SetSlotImporting | extern/redis-3.2.11/src/cluster.c:4004-4015 | Marks a slot that is not this node's as coming from a known node; refused otherwise. |
| ClusterSlots.Cluster.SetSlotStable | extern/redis-3.2.11/src/cluster.c:4016-4019 | Takes back either mark. |
| ClusterSlots.Cluster.SetSlotNode | extern/redis-3.2.11/src/cluster.c:4020-4067 | Binds the slot to a known node, unless this node would give away keys; its marks are taken back as far as keys and destination allow, an import under a new epoch; the tables stay in agreement. |
| ClusterSlots.Cluster.FailoverReplaceYourMaster | extern/redis-3.2.11/src/cluster.c:2667-2695 | The new master owns exactly its own slots and all those of its old master. |
| ClusterSlots.Cluster.AddNode | extern/redis-3.2.11/src/cluster.c:843-850 | A node new to the table serves nothing and is a master of epoch 0; a known name is refused. |
| ClusterSlots.Cluster.AddFailureReport | extern/redis-3.2.11/src/cluster.c:691-713 | At most one report per sender is kept. |
| ClusterSlots.Cluster.DelNode | extern/redis-3.2.11/src/cluster.c:862-889 | Removes the node from table, migrating, importing and as master, and its failure reports with those that expired, keeps every other assignment and report, and keeps the agreement of all tables. |
| ClusterSlots.NothingNamesTheUnknown | extern/redis-3.2.11/src/cluster.c:862-889 | In every valid state no slot, migrating or importing entry, failure report or master link names a node that is not in the table. |
| ClusterSlots.ValidMeans | extern/redis-3.2.11/src/cluster.c:3378-3436 | In every valid state the table gives a slot to a node exactly if its bitmap has it, the counts are right, a slave serves nothing, and no node reports another twice. |
| ClusterSlots.CurrentMasterIs | extern/redis-3.2.11/src/cluster.c:1452-1456 | Where writes go: to this node if it is a master, else to the one it replicates. |
| ClusterSlots.FreedAt | extern/redis-3.2.11/src/cluster.c:862-889 | A node that leaves takes only itself away, and the master of its slaves. |
| ClusterSlots.GainKeepsAgree | extern/redis-3.2.11/src/cluster.c:3378-3424 | Taking a free slot keeps: slot j names node n exactly when bit j of n is set, and each population count is right. |
| ClusterSlots.LossKeepsAgree | extern/redis-3.2.11/src/cluster.c:3403-3436 | Losing a slot keeps the same agreement. |
| ClusterSlots.EmptyMeansUnnamed | extern/redis-3.2.11/src/cluster.c:1443-1531 | A node's population count is zero exactly when no slot names it. |
| ClusterSlots.HandledIsBound | extern/redis-3.2.11/src/cluster.c:1443-1531 | The loop over the slots computes the pure binding of the claim, so its confluence carries over. |
| ClusterSlots.RepeatedIsBound | extern/redis-3.2.11/src/cluster.c:1801-1826 | Skipping a claim that equals the recorded bitmap changes nothing that handling it would have changed. |
| ClusterBitmap.Bitmap.SetBit | extern/redis-3.2.11/src/cluster.c:3347-3351 | Sets one bit and leaves every other bit of the bitmap alone. |
| ClusterBitmap.Bitmap.TestBit | extern/redis-3.2.11/src/cluster.c:3340-3344 | A bit tests as one exactly if its slot is in the set that the bytes stand for. |
| ClusterBitmap.Bitmap.ClearBit | extern/redis-3.2.11/src/cluster.c:3354-3358 | Clears one bit and leaves every other bit of the bitmap alone. |
| TopomPromotion.PromotionIsCrashSafe | topom/group.go:211-306 | However often a promotion stops at a failed or ambiguous write, and the dashboard restarts if the record was up to date at first, repeating it leaves, in memory and on record, the group of one uninterrupted run: the requested server first, swapped once, the same servers and ports, promotion cleared. |
| TopomPromotion.AttemptAdvances | topom/group.go:211-306 | Each attempt, whatever fails, only moves the promotion in memory forward, and reports success only when it is complete. |
| TopomPromotion.PromotesTheRequestedServer | topom/group.go:211-306 | From any state an attempt changes, in memory and on record, at most the named group, and there at most swaps the requested server with the first one, ports and create time kept. |
| TopomEffects.PromoteRefusedIff | topom/group.go:223-262 | Refused are the first server, a server other than the one whose promotion is under way, and a group in an unknown state; a promotion succeeds only if every write does. |
| TopomEffects.PromoteUnknown | topom/group.go:211-232 | Likewise for a promotion. |
| TopomEffects.CreateIs | topom/group.go:17-52 | A group is created exactly if its name has 1 to 32 characters and is new and its two ports differ and are nobody's; it is empty, and goes to memory only if it was written. |
| TopomEffects.RemoveIs | topom/group.go:54-72 | Exactly an empty group is removed; memory keeps it if the write fails, the records only if it was not written. |
| TopomEffects.AddIs | topom/group.go:134-169 | The address goes to the end of the group, unless some group has it; before, the sentinels are flagged if there are any. |
| TopomEffects.DelIs | topom/group.go:171-209 | The first occurrence of the address goes, all others stay in order; the group is marked if a slave went, never if it is empty; a master that is not the last server stays. |
| TopomEffects.DelRefused | topom/group.go:171-190 | Without the group or the address nothing changes. |
| TopomEffects.ResyncIs | topom/group.go:74-97 | The mark is cleared, and set again exactly if some server was not told. |
| TopomEffects.AddSentinelIs | topom/sentinel.go:15-42 | The address goes to the end of the sentinels, which are flagged, unless it is there. |
| TopomEffects.DelSentinelIs | topom/sentinel.go:44-83 | The first occurrence of the address goes, all others stay in order, after the flag was written and the sentinel let go or it was forced. |
| TopomEffects.DelSentinelRefused | topom/sentinel.go:44-68 | Without the sentinel, or the address, nothing changes. |
| TopomEffects.ResyncSentinelsIs | topom/sentinel.go:85-124 | The flag is set and written, and cleared only when the sentinels were told. |
| TopomRuns.RunKeepsUnique | topom/group.go:17-209 | In memory, in every run without a restart, whatever writes fail: no server occurs twice in or across groups and all ports of all groups are pairwise distinct. |
| TopomRuns.RecordsUniqueIffCareful | topom/dao/mapper/group_mapper.go:33-114 | Over every run, restarts included, the records were unique all along if and only if no event recorded a group with a server or port that is on record for another group. |
| TopomRuns.RecordsStayUniqueIff | topom/dao/mapper/group_mapper.go:61-107 | The same for one event, restarts included. |
| TopomRuns.UpToDateIsCareful | topom/dao/mapper/group_mapper.go:61-107 | While every record has the servers and ports that memory has, every event is careful. |
| TopomRuns.LostRemovalDuplicatesServer | topom/group.go:171-209 | A run that breaks it: a removal that was not recorded, then the server added to another group; after a restart memory has it twice. |
| TopomRuns.AmbiguousCreateDuplicatesPort | topom/dao/mapper/group_mapper.go:61-75 | Another one: a creation that was recorded but reported as failed, then its port taken again. |
| TopomRuns.MasterChangesOnlyBy | topom/group.go:134-301 | In memory, the first server of a non-empty group changes only by promotion to the requested server, by a switch to the very server the sentinels mean, by removal of its last server, or by a restart to the one on record. |
| TopomRuns.SwitchIsWatched | topom/sentinel.go:242-283 | After a switch the sentinels are taken to watch the address they named, or, if the group does not have it, a server with its run id. |
| TopomModel.SwitchAdoptsTheServerMeant | topom/sentinel.go:242-283 | The server of the address, or else the first one with the run id of that address, changes places with the first server and the group is marked; without such a server the switch fails and changes nothing. |
| TopomFlags.RunKeepsFlagSound | topom/sentinel.go:15-295 | In memory, in every run without a restart in which the sentinels can be read: if sentinels exist and the flag is clear, they were told exactly the current masters. |
| TopomFlags.StepKeepsRecordSoundIff | topom/dao/mapper/sentinel_mapper.go:32-74 | The record of the flag is as sound as memory after an event, and after a restart right behind it, if and only if a cleared flag or an adopted master is recorded in step with the masters on record. |
| TopomFlags.RecordsSoundIffFlagCareful | topom/dao/mapper/sentinel_mapper.go:32-74 | Over every run with unique records, restarts included, the record of the flag was sound all along if and only if every event was such. |
| TopomFlags.CarefulRunKeepsFlagSound | topom/dao/mapper/sentinel_mapper.go:32-74 | In every run of such events, with restarts anywhere, the flag is sound in memory and on record. |
| TopomFlags.LostAdditionBreaksFlag | topom/sentinel.go:85-124 | A run that breaks it by a restart: an addition that was not recorded, whose master the sentinels were told. |
| TopomFlags.UnreadAddition | topom/sentinel.go:285-295 | A run in which the sentinels could not be read when a first server was added: the flag stays clear and the new master unwatched. |
| TopomFlags.UnreadRemoval | topom/sentinel.go:285-295 | Likewise for the removal of a last server. |
| TopomFlags.UnreadAddBreaksFlag | topom/sentinel.go:285-295 | An add whose sentinel read failed breaks the flag exactly when it gives an empty group its first server while sentinels exist and the flag is clear. |
| TopomFlags.UnreadDelBreaksFlag | topom/sentinel.go:285-295 | A delete whose sentinel read failed breaks the flag exactly when it takes a group's last server while sentinels exist and the flag is clear. |
| TopomModel.SwappedIsPermutation | topom/group.go:277-283 | The swap keeps the multiset of servers. |
| TopomService.GetServerIndex | topom/dao/group.go:44-51 | The search loop finds the first index of the address, or -1. |
| TopomService.GetMasters | topom/dao/group.go:63-71 | The loop over the groups maps exactly the non-empty groups to their first server. |
| TopomService.Service.CreateGroup | topom/group.go:17-52 | Creates the group unless name or ports are taken; memory, records and result for every outcome of its reads and writes. |
| TopomService.Service.RemoveGroup | topom/group.go:54-72 | Removes only an empty group; memory, records and result for every outcome. |
| TopomService.Service.AddGroupServer | topom/group.go:134-169 | Adds the address unless it is in any group, flags the sentinels for a first server; memory, records and result for every outcome. |
| TopomService.Service.DelGroupServer | topom/group.go:171-209 | Removes a server, the master only if it is the last; memory, records and result for every outcome. |
| TopomService.Service.PromoteServer | topom/group.go:211-306 | The four-state machine with its fall-throughs, write by write; memory, records and result for every outcome. |
| TopomService.Service.ResyncGroup | topom/group.go:74-97 | Clears the flag, tells every server its master, and sets the flag again if one was not told; memory, records and result for every outcome. |
| TopomService.Service.AddSentinel | topom/sentinel.go:15-42 | Adds a sentinel once, with the flag set; memory, records and result for every outcome. |
| TopomService.Service.DelSentinel | topom/sentinel.go:44-83 | Flags, removes on the sentinel (or forced), then forgets it; memory, records and result for every outcome. |
| TopomService.Service.ResyncSentinels | topom/sentinel.go:85-124 | The sentinels are told exactly the current masters before the flag is cleared. |
| TopomService.Service.TrySwitchGroupMaster | topom/sentinel.go:242-283 | Adopts a master that the sentinels elected, found by address or run id; memory, records and result for every outcome. |
| Gslb.DeriveEntry | topom/gslb.go:148-194 | A group is emitted exactly when no healthy slave names another master; the entry is the one described below. |
| Gslb.EntryShape | topom/gslb.go:160-190 | Read lists the healthy linked servers in order and is never empty; Write is at most the first server, exactly if it is healthy. |
| Gslb.HealthIs | topom/gslb.go:160-190 | Healthy, linked and astray, by the fields of the health checks. |
| Gslb.EmittedIs | topom/gslb.go:160-190 | A group is emitted exactly if it has servers and no slave whose check succeeded names another master than its first server. |
| Gslb.ReadersInOrder | topom/gslb.go:160-190 | The readers are in group order. |
| Gslb.ReadersAreLinked | topom/gslb.go:160-190 | A server is in Read exactly if it is healthy and linked, and only once. |
| Gslb.ListedIffEmitted | topom/gslb.go:139-201 | The derived configuration lists exactly the entries of the emitted groups. |
| Gslb.ListedEntriesAreApart | topom/gslb.go:139-201 | No two listed entries, and no two services of one entry, share a port. |
| Gslb.EntriesInOrder | topom/gslb.go:139-201 | The entries are in the order of the sorted groups. |
| Gslb.BeforeIs | topom/sorter.go:9-20 | Creation times are compared as strings, character by character. |
| Gslb.HaproxyBackends | topom/gslb.go:139-201 | The loop over the sorted groups derives that list; without statistics it fails. |
| Gslb.LvsBackends | topom/gslb.go:203-254 | The loops derive the LVS entries from the stored HAProxy record: each service on its own port at every HAProxy host. |
| Gslb.ForwardedIs | topom/gslb.go:203-254 | The servers of an LVS service are the hosts of the HAProxy servers that split, in order, each with the port of the service. |
| Gslb.LvsEntryIs | topom/gslb.go:203-254 | An LVS entry keeps the name, the services and their ports. |
| Gslb.GslbService.RefreshBackendInfo | topom/gslb.go:101-126 | Rewrites the records one by one in the order of the map and stops at the first that cannot be derived; memory, records and result for every outcome of its writes. |
| Gslb.GslbService.AddGSLB | topom/gslb.go:15-49 | Adds an address once, to the object in memory, and refreshes; memory, records and result for every outcome. |
| Gslb.GslbService.DelGSLB | topom/gslb.go:51-90 | Removes an address, and the record with its last one, and refreshes; memory, records and result for every outcome. |
| Gslb.PutIs | topom/dao/mapper/gslb_mapper.go:78-96 | A record equal to the one in memory is not written; memory changes on success only, the records unless the write failed unwritten. |
| Gslb.AddedIs | topom/gslb.go:33-47 | The address goes to the end of the record's servers, in memory. |
| Gslb.DeletedIs | topom/gslb.go:69-88 | The first occurrence of the address goes; the record goes with its last server if the deletion succeeds. |
| Gslb.RefreshSucceedsIff | topom/gslb.go:101-137 | A refresh succeeds if and only if every stored name is supported and derivable, in whatever order they are visited; writes that fail are only logged. |
| Gslb.RefreshSettles | topom/gslb.go:101-254 | One refresh settles HAProxy; once HAProxy is settled it settles LVS, whatever the iteration order. |
| Gslb.TwoRefreshesSettle | topom/gslb.go:101-254 | After two refreshes a third changes nothing in memory, compared by group name, for every map iteration order of all three. |
| Gslb.RecordedIffChanged | topom/dao/mapper/gslb_mapper.go:78-96 | After a refresh without failures a record, of whatever name, is on record if and only if it was so before or the refresh changed it. |
| Gslb.HaproxyIsRecordedIff | topom/gslb.go:101-201 | The HAProxy record: in memory it is the derived one, and the condition follows. |
| Gslb.LvsIsRecordedIff | topom/gslb.go:101-254 | The LVS record likewise; it is derived from the HAProxy record as it was before, if that is visited later. |
| Gslb.AddedServerIsNotRecorded | topom/gslb.go:15-49 | Hence a server added to a HAProxy record that is otherwise up to date is reported as added but not recorded. |
| Gslb.AddedLvsServerIsNotRecorded | topom/gslb.go:15-49 | The same for a server added to such an LVS record, or to none while there is no HAProxy record. |
| AofCodec.CatAppendOnlyGenericCommand | extern/redis-3.2.11/src/aof.c:450-473 | Appends exactly the encoding of the argument vector, for arbitrary bytes. |
| AofCodec.CommandReads | extern/redis-3.2.11/src/aof.c:450-473 | Reading an encoded command yields it and leaves exactly what follows it, for arbitrary binary arguments. |
| AofCodec.CutCommandIsShort | extern/redis-3.2.11/src/aof.c:658-704 | Every proper non-empty prefix of an encoded command reads as a short read, never as an error or another command. |
| AofCodec.PrefixLoads | extern/redis-3.2.11/src/aof.c:630-782 | Loading any prefix of an encoded stream runs exactly the complete commands in it. |
| AofCodec.StreamLoads | extern/redis-3.2.11/src/aof.c:630-782 | Loading an encoded stream yields the same argument vectors. |
| AofCodec.LoadAppendOnlyFile | extern/redis-3.2.11/src/aof.c:630-782 | The loader with its three endings: loaded, cut at the last complete command, refused. |
| AofCodec.BadCommandLine | extern/redis-3.2.11/src/aof.c:675-682 | A line that is no command, a count below one and a NUL behind the star are fatal; a lone star at the end of the file is a short read. |
| AofCodec.NumberIs | extern/redis-3.2.11/src/aof.c:680-693 | Counts and lengths are read as by atoi: white space, a sign, digits up to the first other byte. |
| AofCodec.SpaceIs | extern/redis-3.2.11/src/aof.c:680-693 | White space are blank, tab, newline, vertical tab, form feed and return. |
| AofCodec.InMultiIs | extern/redis-3.2.11/src/aof.c:720-732 | The file ends inside MULTI exactly if some command opened it and none behind that one left it. |
| AofCodec.CrashedFileIsServed | extern/redis-3.2.11/src/aof.c:728-771 | With truncated loading on, any non-empty prefix is served: exactly its complete commands, the file cut at their boundary. |
| AofCodec.CutFileIsRefused | extern/redis-3.2.11/src/aof.c:728-771 | With truncated loading off, a prefix is served if and only if it ends at a command boundary outside MULTI. |
| AofBuffer.DiffBuffer.Append | extern/redis-3.2.11/src/aof.c:125-169 | The block list's contents grow by exactly the fed bytes. |
| AofBuffer.DiffBuffer.SendDiff | extern/redis-3.2.11/src/aof.c:95-122 | Bytes sent followed by bytes kept are the bytes before; nothing is sent after the stop; otherwise sending goes on until all is sent or a write fails, each write moves at least one byte and no more than it accepted, and with writes that accept whole blocks all is sent. |
| AofBuffer.DiffBuffer.Size | extern/redis-3.2.11/src/aof.c:79-91 | The size is the length of the contents. |
| AofBuffer.DiffBuffer.WriteTo | extern/redis-3.2.11/src/aof.c:174-194 | Succeeds exactly if each non-empty block in turn was accepted as a whole, and then exactly the contents were written; on failure a proper prefix. |
| AofServer.FlushConserves | extern/redis-3.2.11/src/aof.c:288-448 | File followed by buffer is the fed history and the recorded size is the file's length, for every outcome of write and ftruncate outside the fsync-always exit. |
| AofServer.FlushIs | extern/redis-3.2.11/src/aof.c:288-448 | A flush writes unless an fsync is pending and it has waited less than two seconds; the whole buffer moves to the file, or none of it, or, if a part cannot be cut off again, that part; after an error a server with fsync-always exits. |
| AofServer.Writer.FlushAppendOnlyFile | extern/redis-3.2.11/src/aof.c:288-448 | The method computes that flush, branch by branch. |
| AofServer.Writer.Feed | extern/redis-3.2.11/src/aof.c:512-576 | A command's text, preceded by SELECT when its database is not the last one, goes to the buffer, and to the rewrite buffer while a child runs. |
| AofServer.Writer.Fork | extern/redis-3.2.11/src/aof.c:1280-1330 | A fork forgets the selected database, so that the rewrite buffer starts with SELECT. |
| AofServer.Writer.RewriteDone | extern/redis-3.2.11/src/aof.c:1376-1485 | Switches to the new file exactly if each non-empty block of the rewrite buffer was written and the rename succeeded: the child's file followed by the rewrite buffer; otherwise nothing of the old state changes. |
| AofServer.SelectText | extern/redis-3.2.11/src/aof.c:512-526 | The SELECT text that the program prints is the encoding of a SELECT command. |
| AofRuns.EmittedReplays | extern/redis-3.2.11/src/aof.c:512-576 | Replaying what was emitted for a command runs it in its own database, whatever was selected. |
| AofRuns.EventsArePossible | extern/redis-3.2.11/src/aof.c:95-122 | The runs leave out nothing: any storable command, any flush, and every step of a rewrite that the handshake allows may happen. |
| AofRuns.PipeIsEmptyAtSwitch | extern/redis-3.2.11/src/aof.c:1140-1160 | In every run whose children read until the pipe is empty, nothing is in the pipe when the rewritten file takes over, because the parent stopped sending before it answered. |
| AofRuns.FileAndBufferReplay | extern/redis-3.2.11/src/aof.c:288-576 | In every such run file followed by buffer loads completely and replays to the dataset, every command in its own database, across rewrites. |
| AofRuns.AnyFileIsServed | extern/redis-3.2.11/src/aof.c:630-782 | At any moment of such a run the file on disk, flushed or not, is served after a crash with exactly its complete commands. |
| AofRuns.RewriteIsInOrder | extern/redis-3.2.11/src/aof.c:1013-1218 | For every interleaving of feeds, partial sends, child reads and the stop handshake, even after a switch that lost bytes: bytes at the child, in the pipe and in the block list are all bytes fed since the fork, start with SELECT, and snapshot plus diff replays to the dataset. |
| AofRuns.SwitchIsRightIffReadOut | extern/redis-3.2.11/src/aof.c:1013-1023 | Switching to the rewritten file loses nothing if and only if the child's last read left nothing in the pipe, after any run in which that held for the switches before. |
| AofRuns.FailedReadLosesCommand | extern/redis-3.2.11/src/aof.c:1157-1164 | A run in which the last read fails: the handshake completes, the switch succeeds, and a command fed since the fork is neither in the file nor in the buffer. |
| Bitfield.SetUnsigned | extern/redis-3.2.11/src/bitops.c:202-215 | Writes the low bits of the value into the field, bit by bit. |
| Bitfield.FieldOfStore | extern/redis-3.2.11/src/bitops.c:202-234 | Writing then reading a field of any offset and width gives the value modulo 2 to the width. |
| Bitfield.StoreFrame | extern/redis-3.2.11/src/bitops.c:202-215 | Every bit outside the field is unchanged. |
| Bitfield.StoreUndone | extern/redis-3.2.11/src/bitops.c:202-234 | Writing back what was read restores the whole string. |
| Bitfield.StoresCommute | extern/redis-3.2.11/src/bitops.c:202-215 | Writes to fields that do not meet commute. |
| Bitfield.ApartIff | extern/redis-3.2.11/src/bitops.c:202-215 | Fields are apart exactly if they share no bit. |
| Bitfield.GetUnsigned | extern/redis-3.2.11/src/bitops.c:222-234 | Reads the number in the field; shifting it together never leaves the 64-bit word. |
| Bitfield.GetSigned | extern/redis-3.2.11/src/bitops.c:236-256 | Or-ing in the high ones gives the two's complement value, widths 1 to 63. |
| Bitfield.SignExtendedIs | extern/redis-3.2.11/src/bitops.c:236-256 | That value is the one number of the signed range congruent to the field. |
| BitfieldOverflow.CheckUnsigned | extern/redis-3.2.11/src/bitops.c:281-316 | Decides over the integers: no overflow exactly if the sum is in range, WRAP gives the congruent number, SAT the nearer bound. |
| BitfieldOverflow.CheckSigned | extern/redis-3.2.11/src/bitops.c:318-368 | The same for signed fields, except that a SET far below the range is answered as an overflow. |
| BitfieldOverflow.WrapSigned | extern/redis-3.2.11/src/bitops.c:350-366 | Masks and sign extension give the one number of the signed range congruent to the sum. |
| BitfieldOverflow.FarBelowIsMisjudged | extern/redis-3.2.11/src/bitops.c:322-338 | For every value far below the range, saturating and failing are answered wrongly: the exception is exact. |
| BitfieldOverflow.LeastNumberIsFarBelow | extern/redis-3.2.11/src/bitops.c:322-338 | The concrete case: SET i8 to the least 64-bit number saturates to 127 instead of -128. |
| BitfieldCommand.WrittenIsRead | extern/redis-3.2.11/src/bitops.c:1001-1070 | What SET or INCRBY leaves in its field is what the next operation reads there, sign and all; a refused one changes nothing. |
| BitfieldCommand.NumberLeft | extern/redis-3.2.11/src/bitops.c:1001-1070 | The number left in the field is the one wanted if it fits; else, by policy, the congruent one, the nearer bound, or none, but for far-below numbers, which a saturating SET takes for large ones. |
| BitfieldCommand.OneAnswered | extern/redis-3.2.11/src/bitops.c:1001-1070 | GET and SET are answered what the field held, INCRBY what it holds afterwards, and nothing exactly if the policy is to fail and the number wanted does not fit; the string is then unchanged. |
| BitfieldCommand.WrittenFrame | extern/redis-3.2.11/src/bitops.c:1001-1070 | SET and INCRBY leave every bit outside their field alone. |
| BitfieldCommand.OperationsCommute | extern/redis-3.2.11/src/bitops.c:997-1106 | Operations on fields that do not meet commute, replies included. |
| BitfieldCommand.IncrementsCancel | extern/redis-3.2.11/src/bitops.c:1018-1037 | Wrapping increments by opposite amounts restore the whole string. |
| BitfieldCommand.NegativeUnsignedSaturatesUp | extern/redis-3.2.11/src/bitops.c:1055-1058 | A saturating SET of an unsigned field with a negative number stores the maximum. |
| BitfieldCommand.WindowReads | extern/redis-3.2.11/src/bitops.c:1086-1104 | The nine-byte window of GET reads exactly the field of the zero-padded string. |
| BitfieldCommand.ReadWindow | extern/redis-3.2.11/src/bitops.c:1073-1105 | GET equals reading the zero-padded string, wherever the string ends. |
| BitfieldCommand.PaddingIsNotSeen | extern/redis-3.2.11/src/bitops.c:471-484 | Growing the string before the writes is not seen by any operation: replies and bits are those of the zero-padded string. |
| BitfieldCommand.GrownIsSame | extern/redis-3.2.11/src/bitops.c:471-484 | A string grown with zeros has the same bits. |
| BitfieldCommand.Execute | extern/redis-3.2.11/src/bitops.c:903-1114 | A read-only command leaves the key alone; any other runs its operations in order on the string grown to hold the highest bit written, and every reply answers its operation on the string as those before it left it. |
| BitfieldCommand.HighestIsMet | extern/redis-3.2.11/src/bitops.c:903-975 | That bit is the greatest last bit of a write. |
| BitCount.Popcount | extern/redis-3.2.11/src/bitops.c:40-92 | The count is the number of one bits, for every string, length and alignment. |
| BitCount.BitcountCommand | extern/redis-3.2.11/src/bitops.c:758-804 | The ones in a range of bytes, negative indices counting from the end; none for a missing key or an empty range. |
| BitString.RangeIs | extern/redis-3.2.11/src/bitops.c:770-795 | Negative indices count from the end; a start below zero is zero, an end below zero is zero, one behind the last byte is the last byte. |
| BitCount.GatheredColumns | extern/redis-3.2.11/src/bitops.c:80-86 | Seven words of byte counts up to eight, 7 * 4 * 8 = 224 < 256, gather in the top byte without overflow. |
| BitCount.CountInBytes | extern/redis-3.2.11/src/bitops.c:66-81 | The three masked steps count the bits of each byte in place; no carry leaves a lane. |
| BitCount.TableCounts | extern/redis-3.2.11/src/bitops.c:44 | Every entry of the byte table is the number of ones of its index. |
| BitCount.BytesCountOnes | extern/redis-3.2.11/src/bitops.c:40-92 | Summing over bytes is counting bit by bit. |
| BitPos.Bitpos | extern/redis-3.2.11/src/bitops.c:101-179 | The first matching bit of the zero-padded string for every alignment, -1 exactly if a one is sought and there is none. |
| BitPos.Scan | extern/redis-3.2.11/src/bitops.c:161-178 | The final scan always finds its bit: the panic is never reached. |
| BitPos.BitposCommand | extern/redis-3.2.11/src/bitops.c:807-882 | The first matching bit in a range of bytes, which counts as zero-padded exactly if no end was given; a missing key is an endless string of zeros. |
| BitPos.AnswerIsUnique | extern/redis-3.2.11/src/bitops.c:860-880 | That answer is unique: -1 exactly if the range, padded or not, does not hold the bit. |
| BitPos.FirstIsUnique | extern/redis-3.2.11/src/bitops.c:94-100 | There is only one first bit, so the answer does not depend on the path. |
| BitPos.ZeroBehindOnes | extern/redis-3.2.11/src/bitops.c:94-100 | A zero sought in a string of ones is found exactly behind its last bit. |
| BitOp.Bitop | extern/redis-3.2.11/src/bitops.c:584-755 | The result is as long as the longest source and combines the zero-padded sources byte by byte, whichever path computed it; NOT with several keys is refused; empty sources delete the target. |
| BitOp.FastPath | extern/redis-3.2.11/src/bitops.c:655-718 | With up to 16 sources the four-word rounds compute the same bytes as the byte-wise fold, as far as all sources reach in whole rounds. |
| BitOp.ByteOfWords | extern/redis-3.2.11/src/bitops.c:668-706 | A bitwise operation on words acts on each of their bytes. |
| BitOp.CombinedBit | extern/redis-3.2.11/src/bitops.c:720-733 | Bit for bit: AND if all are one, OR if any, XOR if an odd number. |
| Crc32.Crc32Table.constructor | extern/redis-3.2.11/src/crc32.c:7-21 | Entry i of the table is i after eight register steps. |
| Crc32.Crc32Table.Update | extern/redis-3.2.11/src/crc32.c:28-36 | The table-driven checksum is the checksum of the bit-serial register, for every message. |
| Crc32.Checksum | extern/redis-3.2.11/src/crc32.c:23-41 | With the table of the IEEE polynomial it is the IEEE checksum. |
| Crc32.TableByteIsSerial | extern/redis-3.2.11/src/crc32.c:28-36 | One byte through the table is eight bits through the register. |
| Crc32.StepsAreLinear | extern/redis-3.2.11/src/crc32.c:7-21 | Register steps are linear over xor. |
| Crc32.CrcContinues | extern/redis-3.2.11/src/crc32.c:28-36 | A checksum continued over the second part of a message is the checksum of the whole. |

## Left out

Redis Cluster:
- Node names are numbered in their memcmp order and every node is in every table; handshakes and gossip are left out.
- Epochs are unbounded; the wrap-around of a 64-bit epoch is not modelled.
- The slot bitmap of a node is a set of slots; `ClusterBitmap` shows how the bytes represent it.
- The list of a master's slaves is modelled as the inverse of the slaves' master links.
- Which failure reports have expired is an input, as is every clock.
- Elections: the voters are fixed, nothing restarts, an ack is not repeated, and a winner's slots are those of
  `ClusterSlots`. In a run, scheduling, asking and winning may happen at any time that the counters allow.
- A slave whose master is unknown does not receive claims in this model; the code would dereference a null master.
- The epoch to which SETSLOT NODE bumps this node is an input, and so is whether a slot has keys.
- Claims: a node publishes under one epoch that no other has, and stays a master; an older packet that arrives late, a
  slave's PING and importing are in `ProcessPing` and `ProcessUpdate` but not in the confluence results.
- ClusterSlots.Cluster.ProcessPing: the change of this node's own epoch when it collides with the sender's is
  `ClusterEpoch`'s subject; the confluence results are about messages that do not collide with a node that serves slots.
- A PING from the node itself, hard reset, ADDSLOTS, MIGRATE and configuration files.

Topom:
- `ResyncGroupAll`, the sentinel watchers and the record of sentinel masters kept for them, logging and HTTP.
- Each operation is one step: the dashboard's mutex is held throughout.
- A decode error when a restart reads the records; JSON encoding; the splitting of host and port is a parameter.
- A slice that is nil and one that is empty, which the comparison before a GSLB write tells apart, are one here.
- GslbService.DelGSLB: the names that the refresh visits are an input, and must be among those that are left.
- Redis and sentinel clients: their answers are inputs.

Append-only file:
- AofServer.Writer.Feed: commands are fed as they are to be written; EXPIRE, SETEX and the like are not translated.
- The state after `CONFIG SET appendonly`, in which a first rewrite is awaited; the fsync-always exit ends a run.
- The clocks of the handshake: child and parent may take its steps at any time; a child that gives up has failed.
- Errors of fgets, fread and fstat, and loading while clients are served; SELECT is matched by its exact name.
- Threads that fsync and close files in the background.

Bits:
- Fields of 64 bits: reading and wrapping them shifts by 64, which is undefined in C. The overflow check is modelled
  for them with the other policies.
- Bitfield.GetSigned: widths 1 to 63, for that reason.
- BitfieldCommand.Execute: signed fields of 64 bits, for that reason.
- SETBIT and GETBIT, parsing of the commands' arguments, and strings stored as integers; a key holds bytes or nothing.
- Words in memory are little-endian.
