# A verified model of Redis 6.0.3 internals and of a packet reassembler

This project models, in Dafny, parts of the Redis 6.0.3 sources that hold together only
because several functions agree with each other, and one receive loop from the code of
chapter 6. It proves what the sources rely on, for all inputs and over whole runs.

* **Cluster** (`ClusterModel`, `ClusterEffects`, `ClusterBus`, `Election`, `SlotClaims`, `LateAck`,
  `ClusterProcess`, `Crc16`). Processes exchange packets over a network that loses and
  reorders them. Each handler is a function of the state of a process; the class
  `Cluster` carries the same handlers out field by field and loop by loop. Proved: what
  each handler does, slot by slot and packet by packet,
  the epoch bound and the agreement of both copies of slot ownership in every reachable
  state, election safety, convergence of slot claims, and that the CRC table is long
  division. `LateAck` is a full run showing why election safety needs its assumption
  about late acknowledgements. The protocol is the one of the Redis Cluster
  specification, sections "Replica election and promotion", "Hash slots configuration
  propagation" and "Configuration epoch conflicts resolution algorithm".
* **Append only file** (`AofCodec`, `AofFeed`, `AofMeaning`, `AofRewrite`,
  `RewriteCourse`, `AofProcess`, `Decimal`).
  The encoding (Redis serialization protocol specification, sections "Arrays" and "Bulk
  strings") and the loader of files cut anywhere, the translation of commands with
  expires, the hand-over of the rewrite between two processes, and the flush. The class
  `Aof` takes the steps of the machine in `AofRewrite`, so that the statement about
  restarting the server holds for what its methods do.
* **ACL** (`AclModel`, `AclRules`, `AclDescribe`, `AclFile`, `AclProcess`, `SplitArgs`, `QuotedArgs`, `Strings`).
  The interpreter of rules, the printer that replays them on a fake user, command
  identifiers, decisions, and the file of all users.
* **Blocked clients** (`BlockedModel`, `BlockedService`, `BlockedValues`, `BlockedRuns`,
  `BlockedOrder`, `BlockedFifo`, `BlockedProcess`, `BlockedLists`, `Adlist`). The index
  between clients and keys, the service of lists, sorted sets and streams, who is given
  which element from which end, termination, conservation,
  when a wake-up is lost, and when clients are served in the order they blocked; and the
  doubly linked list below it, on the heap.
* **Bits** (`Bits`, `BitScan`, `Bitop`, `Bitfield`). Counting, finding, combining and
  packing bits with whole words, against the bit-by-bit meaning.
* **Event loop** (`EventFiles`, `TimerHistory`, `TimerTimes`, `EventTimers`) and **packets**
  (`PacketStream`). Timers are objects in a doubly linked list, walked by its pointers
  while callbacks and finalizers change it.

`dafny verify dfyconfig.toml` checks everything.

## Where the code differs from what one would expect

These are results of the proofs; each has a statement with the exact condition and, where
it can fail, one with an input or a run that shows it.

* An acknowledgement that arrives between `failover_auth_count = 0` (cluster.c:3118) and
  the new epoch (cluster.c:3180) is counted for the next election
  (`Election.CountStaysExactIff`, `LateAck.TwoWinnersOfOneEpoch`).
* A file cut in the middle of a command inside MULTI is not reverted to before the MULTI
  (`AofCodec.TransactionsStayWholeIff`, `AofCodec.HalfTransactionExample`).
* A rewrite that begins inside MULTI leaves the rest of the transaction without its MULTI:
  a file that ends there is not reverted (`AofCodec.SplitTransaction`).
* `SET k v EX px EX 10` passes the parser and fails the assertion at aof.c:620
  (`AofFeed.ConfusingExample`); KEEPTTL is not written (`AofFeed.KeepTtlExample`).
* A short write is cut off at `aof_current_size`, which is not updated when a rewrite
  finishes while the file is off (`AofProcess.Aof.FlushAppendOnlyFile`). Commands can be
  in `aof_buf` then, left there by a failed flush before: `AofProcess.StaleSizeExample`.
* A subcommand may contain blanks, but is saved without quotes: the file cannot be loaded
  then (`AclFile.LineSplitsIff`, `AclFile.SpacedSubcommandExample`).
* ALLCOMMANDS does not survive a description (`AclDescribe.RoundTripIsExactIff`, `AclDescribe.FlagIsNotKept`), but no
  decision depends on it (`AclFile.DecisionsAreKept`).
* After a module is unloaded, a user whose right to one of its commands was another than
  that to future commands cannot be described: the panic about the bitmaps is reached
  (`AclDescribe.UnloadIff`).
* A list that replaces a value in place wakes nobody up (`BlockedRuns.UnnoticedIsLost`,
  `BlockedRuns.LostWakeUpExample`).
* Clients waiting for lists can be overtaken where others wait for a sorted set at the
  same key, and the other way round (`BlockedOrder.SortedKeepsOrderIff`,
  `BlockedOrder.ListKeepsOrderIff`, `BlockedFifo.OvertakenExample`).
* A finalizer that processes timers can free the timer at which the pass goes on
  (`EventTimers.TimerLoop.Reap`, `EventTimers.TimerLoop.ProcessTimeEvents`,
  `EventTimers.SavedTimerFreed`).
* Saturating a SET far below the range of a signed field stores the maximum
  (`Bitfield.CheckSignedBitfieldOverflow`, `Bitfield.SaturatedToMaximum`).
* Reading and wrapping signed fields of 64 bits shifts a word by 64, which C does not
  define; what comes out is right only under a condition on what the shift gives
  (`Bitfield.GetSignedBitfield`, `Bitfield.WrappedIs`, `Bitfield.NegativeReadsMinusOne`).
* Registering an empty mask makes `maxfd` wrong (`EventFiles.EventLoop.CreateFileEvent`,
  `EventFiles.EmptyMaskExample`).

## Model

| member | source | states |
|---|---|---|
| ClusterModel.RebindCoherent | Chapter02/redis-6.0.3/src/cluster.c:3741-3799 | rewriting the slot table, with the bitmaps and counters that follow, keeps slots[j] == n exactly when bit j of n is set and numslots equal to the number of set bits |
| ClusterModel.CoherentDetermined | Chapter02/redis-6.0.3/src/cluster.c:3741-3813 | the slot table determines all bitmaps and counters: two coherent configurations with the same table agree on every node |
| ClusterModel.OwnedEmpty | Chapter02/redis-6.0.3/src/cluster.c:1636-1643 | numslots is 0 exactly when no slot of the table belongs to the node, which is what the losing master tests |
| ClusterModel.UpdateSlotsKeepsInv | Chapter02/redis-6.0.3/src/cluster.c:1573-1667 | processing any claim of slots keeps the two copies of ownership coherent for all nodes at once, the role of this process and the epoch bound, also when it ends with following the claimant |
| ClusterModel.ReceiveKeepsInv | Chapter02/redis-6.0.3/src/cluster.c:1678-2158 | every packet, whatever its type and sender, keeps the whole invariant, and every packet sent in answer carries no configEpoch above its currentEpoch |
| ClusterModel.FailoverKeepsInv | Chapter02/redis-6.0.3/src/cluster.c:3042-3211 | the failover routine keeps the invariant in each of its outcomes, including the take-over of the master's slots |
| ClusterModel.DelNodeKeepsInv | Chapter02/redis-6.0.3/src/cluster.c:948-975 | deleting a node leaves no slot, import or replica pointing to it and keeps ownership coherent |
| ClusterModel.ExecuteKeepsInv | Chapter02/redis-6.0.3/src/cluster.c:4353-4845 | every accepted CLUSTER command of the model keeps the invariant |
| ClusterModel.VoteKeepsInv | Chapter02/redis-6.0.3/src/cluster.c:2802-2903 | granting or refusing a vote keeps lastVoteEpoch at most currentEpoch, and the acknowledgement it sends is bounded likewise |
| ClusterModel.BroadcastIsTrue | Chapter02/redis-6.0.3/src/cluster.c:2322-2413 | every packet broadcast says the truth about its sender: a master announces exactly the slots the table gives it, under its configEpoch, a replica its master with that node's slots and configEpoch, with no epoch above currentEpoch; one packet goes to each linked node and none to oneself |
| ClusterEffects.FailoverDecides | Chapter02/redis-6.0.3/src/cluster.c:3066-3211 | exactly when an election is scheduled, when votes are asked for, and when it is won: more than half of the masters serving slots, for a replica of a failed master with slots, or in a manual failover |
| ClusterEffects.WinnerTakesOver | Chapter02/redis-6.0.3/src/cluster.c:3004-3032 | the winner owns exactly the slots its master had, of which there are some, under the epoch of the election; that master has none; no other slot and no other node changes |
| ClusterEffects.WinnerTells | Chapter02/redis-6.0.3/src/cluster.c:3026-3028 | every node the winner has a link to gets one packet, with exactly those slots under that epoch and no master |
| ClusterEffects.SizeIs | Chapter02/redis-6.0.3/src/cluster.c:3880-3891 | the size that majorities are counted against is the number of masters that own a slot |
| ClusterEffects.ClaimIs | Chapter02/redis-6.0.3/src/cluster.c:1573-1667 | for each slot: a claim moves it to the claimant exactly if it is claimed, not being imported, and free or owned under a lower epoch; whoever is left without slots, itself or with its master, follows the claimant, and nobody else does |
| ClusterEffects.UpdateIs | Chapter02/redis-6.0.3/src/cluster.c:2123-2151 | an UPDATE with a newer epoch makes the node a master of that epoch and gives it every slot named whose owner has a lower epoch and that is not being imported; an older one changes nothing |
| ClusterEffects.VoteIs | Chapter02/redis-6.0.3/src/cluster.c:2802-2903 | exactly when a vote is given; one acknowledgement goes to the candidate, and lastVoteEpoch is the only other thing that changes |
| ClusterEffects.AckIs | Chapter02/redis-6.0.3/src/cluster.c:2098-2110 | an acknowledgement is counted, once, exactly if it is a serving master's and not older than the election |
| ClusterEffects.RoleIs | Chapter02/redis-6.0.3/src/cluster.c:1936-1970 | a node that says it is a master is nobody's replica; a master that says it is a replica loses exactly its slots and follows the node it names, if known |
| ClusterEffects.SendUpdateIs | Chapter02/redis-6.0.3/src/cluster.c:2016-2039 | who claims a slot that a node with a newer epoch has is told about that node, its epoch and all its slots, for the least such slot; nobody else is |
| ClusterEffects.SettledIs | Chapter02/redis-6.0.3/src/cluster.c:1120-1135 | of two masters with the same epoch exactly the one with the smaller name takes a new epoch |
| ClusterEffects.HeartbeatIs | Chapter02/redis-6.0.3/src/cluster.c:1780-2052 | a heartbeat step by step: epochs, role, claims, collision; the answer, and the UPDATE exactly if the claims differ from the record and there is a link |
| ClusterEffects.OtherPacketsAre | Chapter02/redis-6.0.3/src/cluster.c:2053-2158 | nothing is believed from unknown nodes; FAIL marks one known node other than this process |
| ClusterEffects.AddSlotsIs | Chapter02/redis-6.0.3/src/cluster.c:4353-4402 | all slots of ADDSLOTS are taken if none has an owner, else nothing happens |
| ClusterEffects.DelSlotsIs | Chapter02/redis-6.0.3/src/cluster.c:4353-4402 | all slots of DELSLOTS lose their owner if each has one, else nothing happens |
| ClusterEffects.MarkIs | Chapter02/redis-6.0.3/src/cluster.c:4344-4450 | FLUSHSLOTS frees exactly the slots of this process; importing marks are set and taken away under the source's conditions |
| ClusterEffects.AssignIs | Chapter02/redis-6.0.3/src/cluster.c:4445-4499 | SETSLOT NODE: exactly that slot changes, under the source's conditions; getting an imported slot ends the import and takes a new epoch |
| ClusterEffects.EpochCommandIs | Chapter02/redis-6.0.3/src/cluster.c:4500-4506 | BUMPEPOCH takes a new epoch unless this process has the greatest; SET-CONFIG-EPOCH only for a node alone without one |
| ClusterEffects.ReplicateIs | Chapter02/redis-6.0.3/src/cluster.c:4653-4689 | exactly when this process becomes a replica of the node, and what changes then |
| ClusterEffects.ResetIs | Chapter02/redis-6.0.3/src/cluster.c:545-575 | a soft reset leaves a master that knows nobody and no slot, with its epochs |
| ClusterEffects.ForgetIs | Chapter02/redis-6.0.3/src/cluster.c:4634-4652 | forgetting a node takes it out with its slots, the imports from it and the references of its replicas, and nothing else |
| ClusterBus.RunsAreSound | Chapter02/redis-6.0.3/src/cluster.c:1678-2158 | in every run of any number of processes over a network that loses and reorders packets: currentEpoch bounds lastVoteEpoch, the epoch of the election and every configEpoch known, ownership is coherent everywhere, and each packet in flight carries a currentEpoch at least as large as any configEpoch in it |
| ClusterBus.PacketEpochIsNew | Chapter02/redis-6.0.3/src/cluster.c:1678-2158 | handling any packet but an UPDATE leaves the configEpoch of the process, or raises it, by a collision, to an epoch greater than every epoch the process knows, voted in or stood for, and than those the packet carried |
| ClusterBus.CommandEpochIsNew | Chapter02/redis-6.0.3/src/cluster.c:1055-1072 | so does every command but SET-CONFIG-EPOCH, by a bump |
| ClusterBus.TakenEpochIsNew | Chapter02/redis-6.0.3/src/cluster.c:1055-1135 | in every run: whenever the configEpoch of a process changes as it handles a packet other than an UPDATE, or a command other than SET-CONFIG-EPOCH, the new one is greater than every epoch it has observed, voted in or stood for |
| ClusterBus.ReceiveFrame | Chapter02/redis-6.0.3/src/cluster.c:1755-2158 | packets change nothing about elections except that an authorization request may be granted, for an epoch later than lastVoteEpoch, and that an acknowledgement may be counted once |
| ClusterBus.FailoverFrame | Chapter02/redis-6.0.3/src/cluster.c:3100-3207 | what the failover routine changes about an election in each outcome: only scheduling resets the count, only starting moves the epoch, only winning takes over |
| Election.RunKeepsElection | Chapter02/redis-6.0.3/src/cluster.c:2098-2110 | over every run: one vote per master and epoch, at most one acknowledgement in flight for it, and failover_auth_count equal to the distinct voters of the running election plus the late ones |
| Election.ElectionSafety | Chapter02/redis-6.0.3/src/cluster.c:3042-3207 | no epoch is won by two different replicas, in every run where the candidates of an epoch agree on the masters serving slots and no acknowledgement is counted between scheduling and starting an election |
| Election.PunctualWinsAgree | Chapter02/redis-6.0.3/src/cluster.c:3186-3207 | the same for two wins that counted no late acknowledgement, whatever happened elsewhere in the run |
| Election.CountStaysExactIff | Chapter02/redis-6.0.3/src/cluster.c:2098-2110 | counting an acknowledgement keeps failover_auth_count the number of distinct voters of this election if and only if failover_auth_sent is set |
| Election.QuorumsMeet | Chapter02/redis-6.0.3/src/cluster.c:3046-3047 | two majorities of the same masters share a master |
| LateAck.TwoWinnersOfOneEpoch | Chapter02/redis-6.0.3/src/cluster.c:3110-3207 | a complete run from fresh processes in which a late acknowledgement makes two replicas win the same epoch: the assumption of ElectionSafety is needed |
| SlotClaims.HighestEpochPrevails | Chapter02/redis-6.0.3/src/cluster.c:1573-1633 | after any list of claims each slot belongs to the claimant or initial owner with the highest epoch |
| SlotClaims.OrderDoesNotMatter | Chapter02/redis-6.0.3/src/cluster.c:1573-1633 | processing the same claims in any other order gives the same owner for every slot |
| SlotClaims.RepeatedClaimIsIgnored | Chapter02/redis-6.0.3/src/cluster.c:1590-1633 | a claim that was processed already changes nothing when it is processed again |
| SlotClaims.ClaimsNeverLowerEpochs | Chapter02/redis-6.0.3/src/cluster.c:1607-1627 | no claim lowers the epoch of the owner of any slot |
| ClusterProcess.Cluster.constructor | Chapter02/redis-6.0.3/src/cluster.c:443-534 | a fresh process knows only itself and satisfies the invariant |
| ClusterProcess.Cluster.AddSlot | Chapter02/redis-6.0.3/src/cluster.c:3782-3787 | assigning a free slot sets table, bit and counter of exactly that slot |
| ClusterProcess.Cluster.DelSlot | Chapter02/redis-6.0.3/src/cluster.c:3792-3799 | freeing an assigned slot clears all three; the assertion that the old owner's bit was set holds |
| ClusterProcess.Cluster.DelNodeSlots | Chapter02/redis-6.0.3/src/cluster.c:3803-3813 | the loop over all slots frees exactly those of the node and returns their number |
| ClusterProcess.Cluster.SetMaster | Chapter02/redis-6.0.3/src/cluster.c:4009-4025 | this process becomes a replica of the node and stops importing |
| ClusterProcess.Cluster.MoveSlot | Chapter02/redis-6.0.3/src/cluster.c:1626-1627 | a slot changes owner through clusterDelSlot and clusterAddSlot, whose assertions hold |
| ClusterProcess.Cluster.ClaimSlots | Chapter02/redis-6.0.3/src/cluster.c:1590-1633 | the loop moves exactly the slots for which the claim prevails, although table and epochs are read while it runs |
| ClusterProcess.Cluster.UpdateSlotsConfigWith | Chapter02/redis-6.0.3/src/cluster.c:1573-1667 | the handler computes the model's function of the state before, including the switch of masters |
| ClusterProcess.Cluster.DelNode | Chapter02/redis-6.0.3/src/cluster.c:948-975 | the two loops leave the state of the model's deletion |
| ClusterProcess.Cluster.SetNodeAsMaster | Chapter02/redis-6.0.3/src/cluster.c:1546-1560 | a replica recorded as such becomes a master without a master of its own |
| ClusterProcess.Cluster.GetMaxEpoch | Chapter02/redis-6.0.3/src/cluster.c:1011-1024 | the greatest of currentEpoch and all configEpochs known, attained by one of them |
| ClusterProcess.Cluster.BumpConfigEpochWithoutConsensus | Chapter02/redis-6.0.3/src/cluster.c:1055-1072 | takes a new epoch exactly when the present one is zero or not the greatest |
| ClusterProcess.Cluster.HandleConfigEpochCollision | Chapter02/redis-6.0.3/src/cluster.c:1120-1135 | of two masters with the same configEpoch the one with the smaller name takes a new epoch, the other none |
| ClusterProcess.Cluster.CountServingMasters | Chapter02/redis-6.0.3/src/cluster.c:3872-3890 | size is the number of masters with at least one slot |
| ClusterProcess.Cluster.UpdateState | Chapter02/redis-6.0.3/src/cluster.c:3872-3890 | size is recomputed and nothing else of the model changes |
| ClusterProcess.Cluster.FailoverReplaceYourMaster | Chapter02/redis-6.0.3/src/cluster.c:3004-3032 | the loop moves exactly the slots of the old master to this process, which becomes a master |
| ClusterProcess.Cluster.BroadcastMessage | Chapter02/redis-6.0.3/src/cluster.c:2322-2336 | the packet goes once to every linked node except this one |
| ClusterProcess.Cluster.ObserveHeader | Chapter02/redis-6.0.3/src/cluster.c:1755-1766 | currentEpoch and the sender's configEpoch are raised, never lowered |
| ClusterProcess.Cluster.SwitchRole | Chapter02/redis-6.0.3/src/cluster.c:1904-1969 | a sender that turned master or replica is recorded as such and, as a replica, loses its slots |
| ClusterProcess.Cluster.SendUpdateIfOutdated | Chapter02/redis-6.0.3/src/cluster.c:2010-2040 | an UPDATE goes out for the first slot whose owner has a higher epoch than the sender claims |
| ClusterProcess.Cluster.ProcessHeartbeatConfig | Chapter02/redis-6.0.3/src/cluster.c:1971-2053 | claims, updates and collisions of a heartbeat are handled in the source's order |
| ClusterProcess.Cluster.SendFailoverAuthIfNeeded | Chapter02/redis-6.0.3/src/cluster.c:2802-2903 | a vote is granted exactly under the source's conditions, at most once for an epoch |
| ClusterProcess.Cluster.ProcessUpdate | Chapter02/redis-6.0.3/src/cluster.c:2123-2148 | an UPDATE with a newer epoch makes the node a master again and rebinds its slots |
| ClusterProcess.Cluster.ProcessPacket | Chapter02/redis-6.0.3/src/cluster.c:1678-2158 | the dispatch computes the model's Receive for every packet |
| ClusterProcess.Cluster.HandleSlaveFailover | Chapter02/redis-6.0.3/src/cluster.c:3042-3211 | the routine computes the model's outcome, decision by decision |
| Crc16.TableIsEightShifts | Chapter02/redis-6.0.3/src/crc16.c:47-80 | every one of the 256 table entries is what eight single division steps make of its byte |
| Crc16.ByteIsEightBits | Chapter02/redis-6.0.3/src/crc16.c:82-88 | looking up one byte divides the remainder by the polynomial bit by bit, for every remainder and byte |
| Crc16.CrcIsDivision | Chapter02/redis-6.0.3/src/crc16.c:82-88 | the table form is long division of the whole message by x^16 + x^12 + x^5 + 1 |
| Crc16.Crc | Chapter02/redis-6.0.3/src/crc16.c:82-88 | the loop returns that remainder for every byte string |
| Crc16.KeyHashSlot | Chapter02/redis-6.0.3/src/cluster.c:704-723 | the slot is below 16384, computed from the hash tag alone if the key has one and from the whole key otherwise |
| Crc16.TagIsUnique | Chapter02/redis-6.0.3/src/cluster.c:704-723 | a key has at most one hash tag: the bytes between its first { and the first } behind it, if there are any |
| Decimal.ReadPrinted | Chapter02/redis-6.0.3/src/aof.c:527-538 | a printed length or count is read back as the same number |
| Decimal.ReadSpaced | Chapter02/redis-6.0.3/src/aof.c:787 | blanks in front of a number and a plus sign are passed over |
| AofCodec.CatAppendOnlyGenericCommand | Chapter02/redis-6.0.3/src/aof.c:522-545 | the loop appends the RESP encoding of the arguments |
| AofCodec.ReadArgv | Chapter02/redis-6.0.3/src/aof.c:774-820 | reading the lines and bulks of one command gives what the model of the format says, for every file and position |
| AofCodec.LoadAppendOnlyFile | Chapter02/redis-6.0.3/src/aof.c:759-894 | the loop over the file is the model's loader, with MULTI, EXEC and valid_up_to |
| AofCodec.LoadOfCutFile | Chapter02/redis-6.0.3/src/aof.c:759-894 | for any commands and any byte prefix of their encodings: exactly the commands wholly inside the prefix were read, in order, transactions included, and the file is found whole or cut accordingly |
| AofCodec.LoadOfCutPlainFile | Chapter02/redis-6.0.3/src/aof.c:831-894 | without transactions valid_up_to is the end of the last whole command, and these commands were run |
| AofCodec.LoadOfWholeFile | Chapter02/redis-6.0.3/src/aof.c:732-838 | any sequence of commands is loaded back to the same argument vectors, those of a transaction when its EXEC comes; a transaction without EXEC is reverted to before its MULTI |
| AofCodec.RunTransaction | Chapter02/redis-6.0.3/src/multi.c:107-210 | MULTI, commands and EXEC, read as a whole, run exactly these commands after the ones before, and nothing stays queued |
| AofCodec.SplitTransaction | Chapter02/redis-6.0.3/src/aof.c:1588-1631 | a file that ends inside a transaction drops all of it; when the rewrite began after its MULTI, a file that ends at the same command keeps those before, outside any transaction |
| AofCodec.ReadCommandCut | Chapter02/redis-6.0.3/src/aof.c:774-820 | a command cut anywhere is never mistaken for another one |
| AofCodec.BadFileIs | Chapter02/redis-6.0.3/src/aof.c:772-812 | which bytes at which place make loading fail, as an error of format or of reading |
| AofCodec.HalfTransactionExample | Chapter02/redis-6.0.3/src/aof.c:831-894 | MULTI, SET k v, EXEC cut inside SET: what is retained is MULTI alone, an open transaction, which the next load reverts |
| AofCodec.TransactionsStayWholeIff | Chapter02/redis-6.0.3/src/aof.c:831-894 | a cut file is reverted to before an unfinished MULTI if and only if the cut is at the end of a command |
| AofFeed.ScanFindsExpire | Chapter02/redis-6.0.3/src/aof.c:611-620 | the scan of all arguments of SET finds the expire its parser found, and both units exactly if an option argument reads as the other unit |
| AofFeed.TranslateSet | Chapter02/redis-6.0.3/src/aof.c:607-626 | SET with options is written so that replaying it sets the same value and expire, unless KEEPTTL was given for a key that had an expire |
| AofFeed.TranslationPreservesMeaning | Chapter02/redis-6.0.3/src/aof.c:596-632 | every command that changed a key is written so that replaying it at any later clock makes the same change; exactly when the assertion about EX and PX fails; exactly when an expire is lost |
| AofFeed.HistoryReplays | Chapter02/redis-6.0.3/src/aof.c:584-632 | replaying everything written for any history over several databases, with forced re-selection at any moments, gives the same keys, values and absolute expires |
| AofMeaning.ExpireIs | Chapter02/redis-6.0.3/src/expire.c:489-534 | EXPIRE, PEXPIRE, EXPIREAT and PEXPIREAT in milliseconds: the key gets the expire, or goes if that is past, and what is written has the same absolute time |
| AofMeaning.SetExpiringIs | Chapter02/redis-6.0.3/src/t_string.c:154-162 | SETEX and PSETEX likewise, as SET and PEXPIREAT |
| AofMeaning.SetIs | Chapter02/redis-6.0.3/src/t_string.c:68-152 | SET with one option or none: EX in seconds, PX in milliseconds, NX for new keys only, XX for old ones only, KEEPTTL; and what is written |
| AofMeaning.DelIs | Chapter02/redis-6.0.3/src/db.c:562-577 | DEL takes out exactly the keys named and is written only if one was there |
| AofMeaning.SelectIsWritten | Chapter02/redis-6.0.3/src/aof.c:584-600 | what is written for a command: SELECT exactly if the file is in another database or in none that is known, then its translation |
| AofFeed.ConfusingExample | Chapter02/redis-6.0.3/src/aof.c:614-620 | SET k v EX px EX 10 is accepted by the parser and makes the assertion fail |
| AofFeed.KeepTtlExample | Chapter02/redis-6.0.3/src/aof.c:611-626 | SET k w KEEPTTL keeps the expire of k, what is written for it does not |
| AofRewrite.RunIsConserved | Chapter02/redis-6.0.3/src/aof.c:95-194 | over every interleaving of commands, MULTI, EXEC, partial pipe writes, child reads and the stop exchange: what was fed since the fork is what the child read, then the pipe, then the rewrite buffer |
| AofRewrite.RewriteIsExactIff | Chapter02/redis-6.0.3/src/aof.c:1446-1471 | in every run, a completed rewrite's file is the fork snapshot followed by exactly the bytes fed since, if and only if the child's last read drained the pipe |
| RewriteCourse.ExecuteIs | Chapter02/redis-6.0.3/src/aof.c:584-660 | a command changes the data alike whether the file is on or off, and its translation is fed, to aof_buf while the file is on and to the rewrite while there is one, exactly if it changed something and the file is not off |
| RewriteCourse.ControlIs | Chapter02/redis-6.0.3/src/multi.c:107-115 | MULTI and EXEC are fed likewise and change no data |
| RewriteCourse.ForkIs | Chapter02/redis-6.0.3/src/aof.c:1588-1631 | the child has the data of that moment, nothing is fed to it yet, and SELECT is issued again |
| RewriteCourse.RewriteSucceeds | Chapter02/redis-6.0.3/src/aof.c:1678-1827 | whatever was fed, sent and read: the rewrite can be brought to its end, step by step; the new file is what the child began with and all that was fed since; after the answer no more is sent, and it is given once |
| RewriteCourse.FailureIs | Chapter02/redis-6.0.3/src/aof.c:1811-1827 | a failed or killed rewrite leaves file and aof_buf as they were and nothing of itself |
| RewriteCourse.FailIs | Chapter02/redis-6.0.3/src/aof.c:1811-1827 | after a failure of the child its rewrite cannot succeed; switching the file on waits for a rewrite |
| RewriteCourse.AnswerIs | Chapter02/redis-6.0.3/src/aof.c:1505-1533 | the request stops the sending whether or not the answer goes out, and is answered once |
| AofRewrite.FileAndBufferAreLiveData | Chapter02/redis-6.0.3/src/aof.c:1784-1795 | whenever the file is on, loading file and aof_buf gives the live data, across transactions, rewrites begun outside and inside of them, switching off and on, and dropping aof_buf; in the middle of a transaction, together with the commands it queued |
| AofProcess.AcceptedIsRoom | Chapter02/redis-6.0.3/src/aof.c:300-317 | what reaches the file is limited exactly by what the answers of write offer before the first error |
| AofProcess.AofWrite | Chapter02/redis-6.0.3/src/aof.c:300-317 | for every sequence of short, interrupted and failed writes the right bytes are in the file and their number, or -1, is returned |
| AofProcess.WrittenIsFed | Chapter02/redis-6.0.3/src/aof.c:584-632 | what feedAppendOnlyFile writes for an executed command is what the machine of the rewrite records |
| AofProcess.WrittenIsControl | Chapter02/redis-6.0.3/src/multi.c:107-115 | what feedAppendOnlyFile writes for MULTI and EXEC is what the machine of the rewrite records |
| AofProcess.EncodeSelect | Chapter02/redis-6.0.3/src/aof.c:589-597 | the hand-written SELECT is the encoding of that command |
| AofProcess.CatAppendOnlyExpireAtCommand | Chapter02/redis-6.0.3/src/aof.c:554-582 | appends PEXPIREAT with the absolute time in milliseconds |
| AofProcess.CatSet | Chapter02/redis-6.0.3/src/aof.c:607-626 | the loop over the options of SET writes the model's translation, or fails its assertion exactly when that has none |
| AofProcess.CatTranslation | Chapter02/redis-6.0.3/src/aof.c:598-632 | the translation of any command is written |
| AofProcess.Aof.AofRewriteBufferAppend | Chapter02/redis-6.0.3/src/aof.c:125-169 | filling the last block and adding new ones appends exactly the given bytes |
| AofProcess.Aof.AofChildWriteDiffData | Chapter02/redis-6.0.3/src/aof.c:95-122 | some prefix of the rewrite buffer moves into the pipe; nothing after the stop request; everything if the pipe takes every block |
| AofProcess.Aof.AofRewriteBufferWrite | Chapter02/redis-6.0.3/src/aof.c:174-194 | all blocks are written in order, or -1 is returned |
| AofProcess.Aof.FeedAppendOnlyFile | Chapter02/redis-6.0.3/src/aof.c:584-648 | feeding a command, which its callers do only unless the file is off, is the machine's step, with SELECT when the database changes, or the assertion fails |
| AofProcess.Aof.WriteBuffer | Chapter02/redis-6.0.3/src/aof.c:405-482 | the outcome of the write of a flush by the number of bytes the device took and the answer of ftruncate |
| AofProcess.Aof.FlushAppendOnlyFile | Chapter02/redis-6.0.3/src/aof.c:338-520 | file ++ aof_buf is unchanged if and only if no short write was cut off at an outdated aof_current_size, and what is left if one was; the size stays the length of the file; with policy always the server exits unless everything was written and synced; a flush is postponed for less than two seconds |
| AofProcess.Aof.TryFsync | Chapter02/redis-6.0.3/src/aof.c:496-519 | with always the present size is synced; with everysec a turn comes at most once a second and syncs unless a sync is under way; never while children are active if so configured |
| AofProcess.Aof.RewriteAppendOnlyFileBackground | Chapter02/redis-6.0.3/src/aof.c:1588-1631 | a fork forces SELECT to be issued again and clears the stop flag; a failure starts nothing |
| AofProcess.Aof.AofChildPipeReadable | Chapter02/redis-6.0.3/src/aof.c:1505-1526 | the stop request sets the flag whether or not the answer can be sent |
| AofProcess.Aof.KillAppendOnlyChild | Chapter02/redis-6.0.3/src/aof.c:213-232 | buffer, pipe and child are gone |
| AofProcess.Aof.SwitchFile | Chapter02/redis-6.0.3/src/aof.c:1762-1806 | the new file takes over; with the file in use aof_buf is dropped and SELECT forced |
| AofProcess.Aof.BackgroundRewriteDoneHandler | Chapter02/redis-6.0.3/src/aof.c:1678-1827 | only if every step succeeds does the file become the child's file followed by the rest of the rewrite buffer; otherwise the old file stays, and a new rewrite is scheduled while waiting for one |
| AofProcess.Aof.StopAppendOnly | Chapter02/redis-6.0.3/src/aof.c:236-247 | a last flush, then off, without a child; what the flush could not write stays in aof_buf |
| AofProcess.Aof.StartAppendOnly | Chapter02/redis-6.0.3/src/aof.c:251-291 | a rewrite is started or scheduled, and the state waits for it |
| AofProcess.StaleSizeExample | Chapter02/redis-6.0.3/src/aof.c:437-451 | calls from a new server on: a command is fed, a failed last flush leaves it in aof_buf when the file goes off, a rewrite replaces the file meanwhile, the file goes on again; then the file is FLUSHALL, its recorded size 0, and a write that takes one byte and fails leaves the file empty and aof_buf as it was |
| AofProcess.RewriteChild.AofReadDiffFromParent | Chapter02/redis-6.0.3/src/aof.c:1301-1311 | a prefix of the pipe is taken in order; all of it unless a read is interrupted |
| AclModel.SetUserKeepsInv | Chapter02/redis-6.0.3/src/acl.c:717-892 | every rule keeps: bits of no command agree with the bit for future commands, subcommands are listed only for denied commands and without repetitions, hashes are hashes, patterns have no blanks |
| Strings.LowerIs | Chapter02/redis-6.0.3/src/acl.c:719 | comparisons ignore the case of exactly the letters A to Z |
| AclModel.ConfigureKeepsInv | Chapter02/redis-6.0.3/src/acl.c:717-892 | so for every user any sequence of rules led to, refused ones included |
| AclRules.WordsAre | Chapter02/redis-6.0.3/src/acl.c:719-750 | rules of one word, in any case of letters: resetkeys leaves no pattern, resetpass no password, and so on |
| AclRules.ResetIs | Chapter02/redis-6.0.3/src/acl.c:882-886 | reset leaves a user that is off and may do nothing |
| AclRules.PasswordRulesAre | Chapter02/redis-6.0.3/src/acl.c:751-800 | after >p or #h the user has that hash and all others, after <p or !h it does not have it and has all others; refusals as in the source |
| AclRules.PatternRuleIs | Chapter02/redis-6.0.3/src/acl.c:801-817 | a pattern is added once, not with blanks and not for a user that may use all keys |
| AclRules.CommandRulesAre | Chapter02/redis-6.0.3/src/acl.c:818-875 | +name and -name allow and deny exactly that command, subcommands included |
| AclRules.SubRuleIs | Chapter02/redis-6.0.3/src/acl.c:826-867 | +name|sub lists the subcommand once in any case of letters, and is refused for a command allowed as a whole |
| AclRules.UnknownRuleIs | Chapter02/redis-6.0.3/src/acl.c:818-826 | a name that no command has is refused |
| AclRules.CategoryIs | Chapter02/redis-6.0.3/src/acl.c:58-82 | no two categories have the same name |
| AclRules.CategoryRulesAre | Chapter02/redis-6.0.3/src/acl.c:373-391 | +@name and -@name set exactly the rights of the commands of that category that are not of modules |
| AclRules.CategoryNamedIff | Chapter02/redis-6.0.3/src/acl.c:423-466 | a description names a category exactly if more of its commands are allowed than denied, for a user that may not run future commands, or the other way round |
| SplitArgs.ReadsBackIff | Chapter02/redis-6.0.3/src/sds.c:959-1067 | words joined by spaces are divided into the same words if and only if none is empty, starts with a blank or contains a separator, a quote or a NUL |
| QuotedArgs.QuotedReadsBack | Chapter02/redis-6.0.3/src/sds.c:884-907 | words of any bytes, NULs and quotes included, written by sdscatrepr with blanks between them are read back by sdssplitargs as they were |
| QuotedArgs.SingleReads | Chapter02/redis-6.0.3/src/sds.c:1006-1026 | between single quotes every character stands for itself, and only a quote is escaped |
| QuotedArgs.ClosedIs | Chapter02/redis-6.0.3/src/sds.c:996-1003 | a closing quote ends the argument exactly if the line ends there or a blank follows; otherwise the line is refused |
| QuotedArgs.HexDigitIs | Chapter02/redis-6.0.3/src/sds.c:911-940 | hexadecimal digits are read by their value, in small letters and capitals |
| QuotedArgs.NoOtherDigit | Chapter02/redis-6.0.3/src/sds.c:911-914 | and nothing else is such a digit |
| AclDescribe.CommandsDescribed | Chapter02/redis-6.0.3/src/acl.c:423-515 | the bitmap mismatch panic is unreachable, and the emitted rules give any user the same bits and subcommands |
| AclDescribe.NoPanicIff | Chapter02/redis-6.0.3/src/acl.c:504-513 | for any bitmap: the emitted rules give the same bits, and the panic is not reached, if and only if the bits of no command agree with the one for future commands |
| AclDescribe.UnloadIff | Chapter02/redis-6.0.3/src/module.c:7307-7330 | after a command was taken out of the table a user can be described if and only if its bit for that command is the one for future commands, and BitsInv is kept if and only if, besides, it had no subcommands of it |
| AclDescribe.DescriptionRoundTrip | Chapter02/redis-6.0.3/src/acl.c:523-567 | replaying the description on a new user succeeds and gives the same flags, passwords, patterns, bits and subcommands |
| AclDescribe.RoundTripIsExactIff | Chapter02/redis-6.0.3/src/acl.c:523-567 | for every user any rules led to the round trip is exact if and only if ALLCOMMANDS is set whenever all bits are |
| AclDescribe.FlagIsNotKept | Chapter02/redis-6.0.3/src/acl.c:357-365 | +@all -x +x leaves all bits set and ALLCOMMANDS clear, for every command x |
| AclFile.DecisionsAreKept | Chapter02/redis-6.0.3/src/acl.c:1051-1122 | a user and what its description gives decide alike on every command whose identifier fits the bitmap, keys included |
| AclFile.CheckIs | Chapter02/redis-6.0.3/src/acl.c:1051-1117 | a command is allowed if and only if it or its subcommand is and every key argument is matched by some pattern; otherwise the answer is the command, or the first key that is not matched |
| AclFile.CommandIds.GetCommandID | Chapter02/redis-6.0.3/src/acl.c:1005-1033 | a name keeps its identifier, different names get different ones, and none gets the reserved one |
| AclFile.GivenIdsAreValid | Chapter02/redis-6.0.3/src/acl.c:1005-1033 | command tables filled with these identifiers are what the other results ask for, as long as the identifiers fit the bitmap |
| AclFile.FileRoundTrip | Chapter02/redis-6.0.3/src/acl.c:1392-1451 | saving all users and loading the file gives every user again with the same decisions, if no name, pattern or subcommand needs quoting |
| AclFile.LineSplitsIff | Chapter02/redis-6.0.3/src/acl.c:1392-1417 | a saved line is divided into the words it was made of if and only if the name, the patterns and the subcommands of the user contain no separators and no quotes |
| AclFile.SpacedSubcommandExample | Chapter02/redis-6.0.3/src/acl.c:829-858 | the rule +config|a b is accepted, and a file saved with that user in it cannot be loaded |
| AclFile.Validate | Chapter02/redis-6.0.3/src/acl.c:1327-1339 | a line is accepted exactly if all its rules are, starting from a reset user |
| AclFile.Define | Chapter02/redis-6.0.3/src/acl.c:1350-1362 | the assertion that a validated line applies to the real user holds |
| AclFile.LoadFromFile | Chapter02/redis-6.0.3/src/acl.c:1244-1387 | all users of the file, or, after a single error, the users as before |
| AclProcess.PutWordFacts | Chapter02/redis-6.0.3/src/acl.c:325-365 | setting or clearing a bit of a 64-bit word of the bitmap changes that command's bit and no other, for all 1024 |
| AclProcess.SameWords | Chapter02/redis-6.0.3/src/acl.c:504-513 | bitmaps with the same bits are the same words, which is what memcmp compares |
| AclProcess.AclUser.constructor | Chapter02/redis-6.0.3/src/acl.c:217-234 | a new user is disabled and may do nothing |
| AclProcess.AclUser.GetUserCommandBit | Chapter02/redis-6.0.3/src/acl.c:339-343 | the bit of a command, and no bit beyond the bitmap |
| AclProcess.AclUser.SetUserCommandBit | Chapter02/redis-6.0.3/src/acl.c:357-365 | sets or clears that bit only, and clears ALLCOMMANDS with it |
| AclProcess.AclUser.AddAllowedSubcommand | Chapter02/redis-6.0.3/src/acl.c:610-637 | adds a subcommand unless it is there in some case of letters |
| AclProcess.AclUser.SetUserCommandBitsForCategory | Chapter02/redis-6.0.3/src/acl.c:373-388 | the loop over the table sets the bits of the category's commands, modules excepted |
| AclProcess.AclUser.CountCategoryBits | Chapter02/redis-6.0.3/src/acl.c:394-414 | counts the commands of a category that are allowed and denied |
| AclProcess.AclUser.SetUser | Chapter02/redis-6.0.3/src/acl.c:717-892 | the interpreter of one rule computes the model's outcome; nothing changes on an error |
| AclProcess.AclUser.DescribeUserCommandRules | Chapter02/redis-6.0.3/src/acl.c:423-515 | the two loops with the fake user emit the model's rules, and the two bitmaps end up equal |
| AclProcess.AclUser.Describe | Chapter02/redis-6.0.3/src/acl.c:523-567 | flags, passwords, patterns and rules are emitted in the source's order |
| AclProcess.AclUser.CopyUser | Chapter02/redis-6.0.3/src/acl.c:290-311 | the copy is the same user, although subcommands are added one by one |
| AclProcess.AclUser.CheckCommandPerm | Chapter02/redis-6.0.3/src/acl.c:1051-1122 | the loops over subcommands, keys and patterns allow exactly what CheckIs says, or report the first key that is not matched |
| BlockedModel.BlockKeepsInv | Chapter02/redis-6.0.3/src/blocked.c:556-597 | blocking lists the client once for each different key, in the node it remembers, and keeps counters and queues right |
| BlockedModel.UnblockKeepsInv | Chapter02/redis-6.0.3/src/blocked.c:146-167 | unblocking takes the client out of every list, keeps no empty list, and keeps the counters true in total and by type |
| BlockedModel.RotateKeepsInv | Chapter02/redis-6.0.3/src/adlist.c:345-357 | rotation keeps every node and what clients remember of it |
| BlockedModel.RequeueFrame | Chapter02/redis-6.0.3/src/blocked.c:135-142 | a client is queued for reprocessing at most once |
| BlockedService.ServeLoopIsFifo | Chapter02/redis-6.0.3/src/blocked.c:214-257 | of the clients of a key those waiting for a list get one reply each in the order of their nodes; some are left only if the list ran empty |
| BlockedService.ServeSortedKeepsLists | Chapter02/redis-6.0.3/src/blocked.c:274-310 | serving a sorted set changes no list and nobody's waiting for lists, and queues no key |
| BlockedService.ServeStreamKeepsLists | Chapter02/redis-6.0.3/src/blocked.c:320-409 | the same for the service of a stream |
| BlockedService.ServeKeepsInv | Chapter02/redis-6.0.3/src/blocked.c:214-269 | after serving a key nobody waits there for a list with elements, and a list that ran empty is deleted |
| BlockedService.SignalKeepsReady | Chapter02/redis-6.0.3/src/blocked.c:644-665 | a signalled key is queued at most once |
| BlockedService.HandleKeysKeepsInv | Chapter02/redis-6.0.3/src/blocked.c:474-527 | handling keys keeps all of it, and either fewer clients are blocked or no key was queued: the reason why it ends |
| BlockedService.NobodyIsLeftWaiting | Chapter02/redis-6.0.3/src/blocked.c:474-527 | when the queue is empty nobody waits for a list that has elements |
| BlockedService.ServiceConserves | Chapter02/redis-6.0.3/src/blocked.c:214-310 | every element popped from a list or a sorted set goes to the client it is reported to, into the list it was to be moved to, or back |
| BlockedValues.BlockedWith | Chapter02/redis-6.0.3/src/blocked.c:556-574 | a blocked client remembers from which end it wants the element and where it is to go |
| BlockedValues.UnblockedIs | Chapter02/redis-6.0.3/src/blocked.c:602-640 | an unblocked client waits for nothing, wants nothing moved and is taken up again once; nobody else changes |
| BlockedValues.FirstServedIs | Chapter02/redis-6.0.3/src/t_list.c:628-676 | one client: the element from its end goes to it, or becomes the first of the list it named, also if that is new or the same; with another type there the list is as before |
| BlockedValues.ListIsDealt | Chapter02/redis-6.0.3/src/blocked.c:214-269 | a list served to clients that want the same end: as many as there are elements get one each, in order from that end, and the rest of the list is left in order, or nothing |
| BlockedValues.SortedIsDealt | Chapter02/redis-6.0.3/src/blocked.c:274-310 | the same for the least or greatest members of a sorted set |
| BlockedValues.StreamIsServed | Chapter02/redis-6.0.3/src/blocked.c:320-409 | exactly the clients waiting for the stream that have entries to read are unblocked, in no list any more; all others stay as they are |
| BlockedValues.KeyIsServed | Chapter02/redis-6.0.3/src/blocked.c:474-527 | handling a key serves what it holds by its type, and does nothing for other values |
| BlockedRuns.StepKeepsInv | Chapter02/redis-6.0.3/src/blocked.c:556-665 | connecting, pushing, blocking on lists, sorted sets, streams and replicas, timing out, disconnecting, handling: every event keeps the index and the queues |
| BlockedRuns.DataEventIs | Chapter02/redis-6.0.3/src/t_list.c:195-232 | commands on keys: what they leave at the key, that no other key changes, and exactly when the key is queued |
| BlockedRuns.ClientEventIs | Chapter02/redis-6.0.3/src/blocked.c:85-131 | clients come, wait for replicas, are taken up again and go: what changes, and that nobody else does |
| BlockedRuns.RunKeepsIndex | Chapter02/redis-6.0.3/src/blocked.c:85-167 | over every run the index agrees both ways, counters are the true counts, and the queue can always be handled |
| BlockedRuns.NoLostWakeUp | Chapter02/redis-6.0.3/src/blocked.c:474-527 | without a value being replaced in place by a list, nobody who could be served is left waiting after the queue was handled |
| BlockedRuns.UnnoticedIsLost | Chapter02/redis-6.0.3/src/db.c:214-253 | replacing a value in place keeps this if and only if it is not a list, nobody waits for one there, or the key is queued already |
| BlockedRuns.LostWakeUpExample | Chapter02/redis-6.0.3/src/sort.c:573 | a run in which a list put in place of a string leaves a blocked client waiting |
| BlockedProcess.BlockingServer.constructor | Chapter02/redis-6.0.3/src/blocked.c:85-91 | nobody is blocked at the start |
| BlockedProcess.BlockingServer.BlockForKeys | Chapter02/redis-6.0.3/src/blocked.c:556-597 | the loop over the keys computes the model's index |
| BlockedProcess.BlockingServer.UnblockClientWaitingData | Chapter02/redis-6.0.3/src/blocked.c:601-635 | in any order of the keys, each list is found and left, and empty lists are dropped |
| BlockedProcess.BlockingServer.QueueClientForReprocessing | Chapter02/redis-6.0.3/src/blocked.c:135-142 | queues the client unless it is queued |
| BlockedProcess.BlockingServer.UnblockClient | Chapter02/redis-6.0.3/src/blocked.c:146-167 | the panic about unknown types is unreachable; state as in the model |
| BlockedProcess.BlockingServer.SignalKeyAsReady | Chapter02/redis-6.0.3/src/blocked.c:644-665 | queues the key if somebody waits and it is not queued |
| BlockedProcess.BlockingServer.ServeClientBlockedOnList | Chapter02/redis-6.0.3/src/t_list.c:628-676 | delivers or moves the element, creating and signalling the destination, or reports its wrong type |
| BlockedProcess.BlockingServer.ServeFirst | Chapter02/redis-6.0.3/src/blocked.c:233-256 | one client is popped for, unblocked and answered, and the pop undone if that fails |
| BlockedProcess.BlockingServer.GenericZpop | Chapter02/redis-6.0.3/src/t_zset.c:3174-3233 | the least or greatest member is popped and reported; an emptied sorted set is deleted |
| BlockedProcess.BlockingServer.ServeClientsBlockedOnSortedSetKey | Chapter02/redis-6.0.3/src/blocked.c:274-310 | the list of clients is there whenever its first node is read; the loop computes the model's service |
| BlockedProcess.BlockingServer.ServeClientsBlockedOnStreamKey | Chapter02/redis-6.0.3/src/blocked.c:320-409 | the node the walk goes on to is still there after the client before it left |
| BlockedProcess.BlockingServer.ServeClientsBlockedOnKeyByModule | Chapter02/redis-6.0.3/src/blocked.c:417-451 | without clients of modules the loop turns the list round once and leaves it as it was |
| BlockedProcess.BlockingServer.ServeClientsBlockedOnListKey | Chapter02/redis-6.0.3/src/blocked.c:214-269 | the list of clients is there whenever its first node is read, although clients leave it meanwhile |
| BlockedProcess.BlockingServer.HandleClientsBlockedOnKeys | Chapter02/redis-6.0.3/src/blocked.c:474-527 | the nested loops end and compute the model's result |
| BlockedOrder.ServedInBlockingOrder | Chapter02/redis-6.0.3/src/blocked.c:214-269 | the clients waiting for a list are answered by increasing node identity, that is in the order they blocked; who is left blocked after all who were answered, and then the list ran empty |
| BlockedOrder.RotateKeepsOrderIff | Chapter02/redis-6.0.3/src/adlist.c:345-357 | putting the first client behind the others keeps the waiters for a type in the order they blocked if and only if it is not one of them or nobody behind it is |
| BlockedOrder.ListIs | Chapter02/redis-6.0.3/src/blocked.c:214-257 | of the nodes looked at when a list is served those waiting for it leave and the others go to the end in order; the first one left unseen waits for the list, and that ran empty |
| BlockedOrder.ListKeepsOrderIff | Chapter02/redis-6.0.3/src/blocked.c:214-257 | serving a list keeps the waiters for any type in the order they blocked if and only if they wait for lists, or none of them is among the nodes looked at, or none among the others |
| BlockedOrder.SortedServedInBlockingOrder | Chapter02/redis-6.0.3/src/blocked.c:274-310 | the clients waiting for a sorted set are answered by increasing node identity, one reply each; some are left only if it ran empty |
| BlockedOrder.SortedIs | Chapter02/redis-6.0.3/src/blocked.c:274-310 | of the nodes looked at those waiting for the sorted set leave, answered in order, and the others go to the end in order; nodes are left unseen only when it ran empty |
| BlockedOrder.SortedIsServed | Chapter02/redis-6.0.3/src/blocked.c:274-310 | afterwards nobody waits for the sorted set, or it is gone |
| BlockedOrder.SortedKeepsOrderIff | Chapter02/redis-6.0.3/src/blocked.c:274-310 | serving a sorted set keeps the waiters for any type in the order they blocked if and only if they wait for sorted sets, or none of them is among the nodes looked at, or none among the others |
| BlockedOrder.HandleKeyOrderIff | Chapter02/redis-6.0.3/src/blocked.c:474-527 | handling one key keeps the waiters for a type in order if and only if the key does not serve a list or sorted set that breaks it |
| BlockedFifo.RunIsLater | Chapter02/redis-6.0.3/src/blocked.c:556-597 | over every run nodes are made with increasing identities and never again: the smaller identity blocked first |
| BlockedFifo.RunKeepsOrder | Chapter02/redis-6.0.3/src/blocked.c:453-527 | over every run in which the services of other types keep it, the waiters for lists, sorted sets or streams of every key stand in the order they blocked |
| BlockedFifo.WhoBlockedFirstIsInFront | Chapter02/redis-6.0.3/src/blocked.c:214-217 | in such a run, of two clients waiting for the same type at a key the one that did so when the other did not stands in front |
| BlockedFifo.UnmixedRunKeepsOrder | Chapter02/redis-6.0.3/src/blocked.c:463-472 | so in every run in which no key is waited for as that type and as another one that is popped when the queue is handled |
| BlockedFifo.OvertakenExample | Chapter02/redis-6.0.3/src/blocked.c:463-472 | a run in which a sorted set served between two waiters for a list makes the second one be served before the first |
| BlockedLists.AddClient | Chapter02/redis-6.0.3/src/blocked.c:592-594 | the client is in a new last node, which it keeps; the others stay in theirs |
| BlockedLists.RemoveClient | Chapter02/redis-6.0.3/src/blocked.c:612-620 | deleting the node a client kept takes out this client, as the model does by identity, and no other |
| BlockedLists.RotateFirst | Chapter02/redis-6.0.3/src/blocked.c:230 | the first client goes to the end in the node it keeps |
| Adlist.List.Empty | Chapter02/redis-6.0.3/src/adlist.c:56-71 | the walk over the old nodes ends with an empty list |
| Adlist.List.AddNodeHead | Chapter02/redis-6.0.3/src/adlist.c:88-106 | one new node in front of the same nodes |
| Adlist.List.AddNodeTail | Chapter02/redis-6.0.3/src/adlist.c:114-132 | one new node behind the same nodes |
| Adlist.List.InsertNode | Chapter02/redis-6.0.3/src/adlist.c:134-161 | one new node before or after the given one |
| Adlist.List.DelNode | Chapter02/redis-6.0.3/src/adlist.c:167-180 | that node is out, all others are the same nodes in the same order |
| Adlist.List.Dup | Chapter02/redis-6.0.3/src/adlist.c:250-279 | new nodes with the same values; the original is unchanged |
| Adlist.List.SearchKey | Chapter02/redis-6.0.3/src/adlist.c:290-308 | the first node whose value matches, or none |
| Adlist.List.Index | Chapter02/redis-6.0.3/src/adlist.c:315-327 | the node at an index counted from either end |
| Adlist.List.RotateTailToHead | Chapter02/redis-6.0.3/src/adlist.c:330-342 | the last node becomes the first one, as the same node |
| Adlist.List.RotateHeadToTail | Chapter02/redis-6.0.3/src/adlist.c:345-357 | the first node becomes the last one, as the same node |
| Adlist.List.Join | Chapter02/redis-6.0.3/src/adlist.c:361-376 | all nodes of the other list move to the end of this one |
| BitScan.TableIsPop | Chapter02/redis-6.0.3/src/bitops.c:45 | the table of 256 entries counts the ones of a byte |
| BitScan.CountPairs | Chapter02/redis-6.0.3/src/bitops.c:69 | x - ((x >> 1) & 0x55...) has in every two bits the number of ones there, for words of any width |
| BitScan.CountNibbles | Chapter02/redis-6.0.3/src/bitops.c:70 | the second step counts by half bytes |
| BitScan.CountBytes | Chapter02/redis-6.0.3/src/bitops.c:83 | the third step counts by bytes |
| BitScan.MultiplyAdds | Chapter02/redis-6.0.3/src/bitops.c:83-89 | seven words give at most 56 a byte and 224 together, so the multiplication and shift lose nothing |
| BitScan.CountSeven | Chapter02/redis-6.0.3/src/bitops.c:54-90 | seven words are counted exactly |
| BitScan.RedisPopcount | Chapter02/redis-6.0.3/src/bitops.c:40-92 | for any bytes at any alignment the result is the sum over the bytes |
| BitScan.TotalIsOnes | Chapter02/redis-6.0.3/src/bitops.c:40-92 | which is the number of bits that are one |
| BitScan.LoadWord | Chapter02/redis-6.0.3/src/bitops.c:150-158 | eight bytes, padded with zeros, most significant first |
| BitScan.SkipAhead | Chapter02/redis-6.0.3/src/bitops.c:122-143 | nothing that is looked for is skipped, by bytes or by words |
| BitScan.RedisBitpos | Chapter02/redis-6.0.3/src/bitops.c:101-186 | the first position of the bit, zeros following the string; -1 exactly if a one is looked for and there is none; the panic is unreachable |
| Bits.FieldBit | Chapter02/redis-6.0.3/src/bitops.c:229-241 | the bits of a field read as a number are the bits of the string |
| Bits.BitwiseSplit | Chapter02/redis-6.0.3/src/bitops.c:645-720 | pointwise operations on words act on the digits of any power of two apart |
| Bitop.WordsAreBytes | Chapter02/redis-6.0.3/src/bitops.c:660-712 | the operation on machine words is the operation on their bytes |
| Bitop.WordComplement | Chapter02/redis-6.0.3/src/bitops.c:704-712 | the complement of a word is that of its bytes |
| Bitop.BytesAreBits | Chapter02/redis-6.0.3/src/bitops.c:724-739 | the result bit by bit is the operation on the zero-padded bits |
| Bitop.FastPath | Chapter02/redis-6.0.3/src/bitops.c:648-720 | four words at a time, as far as all strings reach, with the result of the byte loop |
| Bitop.BitopCommand | Chapter02/redis-6.0.3/src/bitops.c:591-741 | as long as the longest string, and every bit the operation on the bits at that position |
| Bitfield.SetUnsignedBitfield | Chapter02/redis-6.0.3/src/bitops.c:209-222 | the field holds the value modulo 2^bits and every other bit is as before |
| Bitfield.GetUnsignedBitfield | Chapter02/redis-6.0.3/src/bitops.c:229-241 | the number written in the bits |
| Bitfield.SignedRoundTrip | Chapter02/redis-6.0.3/src/bitops.c:224-263 | two's complement through the 64-bit pattern keeps every value that fits |
| Bitfield.MaskedIs | Chapter02/redis-6.0.3/src/bitops.c:357-374 | oring with the mask shifted by less than 64 sets all bits above the field, masking with its complement clears them, and neither changes the field |
| Bitfield.ExtendedIs | Chapter02/redis-6.0.3/src/bitops.c:259-262 | oring the mask to a field of less than 64 bits gives, as a signed number, the field minus 2^bits |
| Bitfield.SetSignedBitfield | Chapter02/redis-6.0.3/src/bitops.c:224-227 | reading gives back every signed value that fits, and other bits are kept |
| Bitfield.GetSignedBitfield | Chapter02/redis-6.0.3/src/bitops.c:243-263 | the value read, for every width up to 64; it is the two's complement value of the field if and only if the field has less than 64 bits, is not negative, or has a one wherever shifting by 64 leaves one |
| Bitfield.NegativeReadsMinusOne | Chapter02/redis-6.0.3/src/bitops.c:259-262 | where shifting by 64 shifts by nothing, every negative field of 64 bits reads as -1 |
| Bitfield.CheckUnsignedBitfieldOverflow | Chapter02/redis-6.0.3/src/bitops.c:288-323 | zero exactly if the exact sum fits; saturation gives the nearest bound, wrapping the congruent value in range |
| Bitfield.HandleWrap | Chapter02/redis-6.0.3/src/bitops.c:357-374 | the unsigned sum with the bits above the field set by its sign bit is the wrapped exact sum, for every width and whatever shifting by 64 gives |
| Bitfield.CheckSignedBitfieldOverflow | Chapter02/redis-6.0.3/src/bitops.c:325-375 | the same for signed values of up to 64 bits; for a SET value out of range saturation is right if and only if max - value does not overflow |
| Bitfield.WrappedIs | Chapter02/redis-6.0.3/src/bitops.c:357-374 | a wrapped sum is in range, and congruent to the exact one if and only if the field has less than 64 bits or the mask, shifted by 64, changes nothing |
| Bitfield.WriteSigned | Chapter02/redis-6.0.3/src/bitops.c:1021-1058 | SET and INCRBY of a signed field of up to 64 bits: reply, new value by overflow mode, also where saturation, reading or wrapping goes wrong, and no other bit changed |
| Bitfield.SaturatedToMaximum | Chapter02/redis-6.0.3/src/bitops.c:325-375 | SET of the least 64-bit number in a field of 8 bits that is 0, with saturation: the byte 127 is stored and 0 replied |
| Bitfield.WriteUnsigned | Chapter02/redis-6.0.3/src/bitops.c:1059-1095 | the same for unsigned fields |
| Bitfield.GetWindow | Chapter02/redis-6.0.3/src/bitops.c:1103-1133 | reading an unsigned or signed field through the nine-byte copy equals reading it from the zero-padded string |
| EventFiles.ReportedIffRegistered | Chapter02/redis-6.0.3/src/ae_select.c:85-100 | a descriptor is reported exactly if it is registered |
| EventFiles.ReportedIs | Chapter02/redis-6.0.3/src/ae_select.c:85-100 | an entry is readable, or writable, exactly if its mask asks for that and the descriptor is; none is reported twice |
| EventFiles.EventLoop.constructor | Chapter02/redis-6.0.3/src/ae.c:63-94 | no descriptor is registered and maxfd is -1 |
| EventFiles.EventLoop.Resize | Chapter02/redis-6.0.3/src/ae.c:116-132 | refused if a registered descriptor would not fit; otherwise every mask is kept and new ones are empty |
| EventFiles.EventLoop.CreateFileEvent | Chapter02/redis-6.0.3/src/ae.c:153-171 | the mask grows and select's sets mirror it; maxfd stays right if and only if the mask is not empty or maxfd does not move |
| EventFiles.EmptyMaskExample | Chapter02/redis-6.0.3/src/ae.c:153-171 | an empty mask for descriptor 2 of a fresh loop leaves maxfd 2, though nothing is registered |
| EventFiles.EventLoop.DeleteFileEvent | Chapter02/redis-6.0.3/src/ae.c:173-193 | the mask shrinks, with the barrier when writable goes, and maxfd is the largest registered descriptor again |
| EventFiles.EventLoop.ApiPoll | Chapter02/redis-6.0.3/src/ae_select.c:77-102 | what is filled in is the report of all registered descriptors in order and never exceeds the room |
| TimerHistory.GrownTwice | Chapter02/redis-6.0.3/src/ae.c:288-369 | whatever callbacks do one after the other: new timers in front, freed ones gone, the others the same and in order, timers in use never freed, finalizers run for freed timers only |
| TimerHistory.KeptIds | Chapter02/redis-6.0.3/src/ae.c:335-343 | timers still to come have identifiers from before the pass |
| TimerTimes.NeverEarly | Chapter02/redis-6.0.3/src/ae.c:345-348 | no pass runs a timer when all its readings of the clock, those of nested passes included, are before the time of the timer; unless it is gone it keeps that time |
| TimerTimes.FiresInTime | Chapter02/redis-6.0.3/src/ae.c:288-369 | a pass without nested ones looks at every timer at a reading of its own and runs it exactly if that is not before the time it had at the start, unless deleted meanwhile; timers that did not run keep their times, those that did have what their callbacks asked for |
| EventTimers.TimerLoop.CreateTimeEvent | Chapter02/redis-6.0.3/src/ae.c:225-246 | a new object with the next identifier is linked in front of the others, pointers both ways, to fire exactly that many milliseconds from now |
| EventTimers.TimerLoop.DeleteTimeEvent | Chapter02/redis-6.0.3/src/ae.c:248-259 | the first timer with the identifier is marked and nothing is unlinked |
| EventTimers.TimerLoop.SearchNearestTimer | Chapter02/redis-6.0.3/src/ae.c:272-285 | the walk along the pointers finds a timer no other fires before |
| EventTimers.TimerLoop.Unlink | Chapter02/redis-6.0.3/src/ae.c:317-324 | taking a timer out makes its neighbours, or the head, point past it, and the list is well linked again |
| EventTimers.TimerLoop.Reap | Chapter02/redis-6.0.3/src/ae.c:302-329 | the address read before the finalizer runs is that of a linked timer afterwards if and only if the finalizer did not free it: always if it does not process timers; and if it processes them once, quietly, exactly unless the timer behind was deleted and out of use |
| EventTimers.TimerLoop.RunCallback | Chapter02/redis-6.0.3/src/ae.c:345-364 | the very timer stays linked during its callback, nested passes included; its pointer leads to the timers that were behind it, less the freed ones; it is to fire again exactly as many milliseconds after its return as it asked for, or marked; no other timer changes its time but those nested passes ran |
| EventTimers.TimerLoop.ProcessTimeEvents | Chapter02/redis-6.0.3/src/ae.c:288-369 | following the pointers, each timer there at the start is looked at once unless a nested pass freed it, new ones never; exactly those due and not deleted run; those deleted and out of use are freed; no freed timer is touched if no finalizer processes timers; if exactly one does, the q-th to run, and nothing else happens but creation of timers, one is touched if and only if the q-th timer with a finalizer that is freed stood in front of another one deleted and out of use |
| EventTimers.SavedTimerFreed | Chapter02/redis-6.0.3/src/ae.c:302-329 | two timers, both deleted and out of use; the finalizer of the one in front processes the timers: the pass given would go on at freed memory |
| PacketStream.DrainInTwo | Chapter06/code/包分片逻辑.cpp:68-124 | taking packets early and again when more has come is taking them once |
| PacketStream.ChunksDoNotMatter | Chapter06/code/包分片逻辑.cpp:59-124 | however a stream without bad headers is cut, packages, gathered fragments and rest are those of one whole read |
| PacketStream.DrainOfPackets | Chapter06/code/包分片逻辑.cpp:68-124 | one read of well-formed packets hands on the packages they make up |
| PacketStream.StreamIsReassembled | Chapter06/code/包分片逻辑.cpp:59-124 | well-formed packets cut into any pieces are delivered as their packages, each body being the bodies since the last packet numbered 0 |
| PacketStream.HeadReadsBack | Chapter06/code/包分片逻辑.cpp:2-15 | what is read from a header is what was written into it, in network order, at the source's offsets |
| PacketStream.MessagesAreDelivered | Chapter06/code/包分片逻辑.cpp:59-124 | messages sent in fragments numbered from 0, or in one packet, and cut into any pieces: each is delivered as one package with its command and whole body, in order, and nothing else is |
| PacketStream.SocketClient.Receive | Chapter06/code/包分片逻辑.cpp:59-124 | one piece of data: the loop ends and takes out every packet that is complete; a bad header drops the buffer |

## Left out

Names at the head of a line are members whose statement is narrower than the code.

Cluster:

- Nodes are values in a map from names rather than objects linked by pointers, so aliasing of node structures is not modelled; the slot tables are arrays.
- Epochs are unbounded: wrap-around at 2^64 is not modelled.
- Handshakes, gossip, failure reports and their timing: knowing a node and judging it failed are events that may happen at any time.
- migrating_slots_to, the lists of replicas of a master, manual failover timers and replica migration.
- UpdateSlotsKeepsInv: without the early return for modules that switch redirection off (cluster.c:1638) and without deleting the keys of lost slots.
- UpdateSlotsConfigWith: likewise.
- ClaimIs: likewise.
- ReceiveKeepsInv: of the packets, headers, roles, claims, votes, acknowledgements and updates; not handshakes, gossip sections, addresses and failure reports.
- ProcessPacket: likewise.
- HeartbeatIs: likewise.
- AddSlotsIs: the slots of a command are a set; naming one twice, which is refused, is not modelled.
- ExecuteKeepsInv: not CLUSTER RESET HARD, FAILOVER TAKEOVER and slot assignments made on replicas, which break the premises of the protocol.
- UpdateState: the number of masters serving slots only, not the state of the cluster and the handling of minorities around it.
- Persistence of nodes.conf, and so restarts.
- PacketEpochIsNew: an UPDATE about the process itself sets its configEpoch to the one told there, which need not be new.
- ElectionSafety: assumes that candidates of one epoch agree on the masters serving slots and that no late acknowledgement is counted; LateAck shows a run without the latter.
- HighestEpochPrevails: the slot is not being imported, and each claim comes from a known node other than this one under the configEpoch recorded for it, which does not change meanwhile.

Append only file:

- The writer of the dataset (rewriteAppendOnlyFileRio) and the RDB preamble: the commands of a snapshot are given, and are assumed to recreate the data of the fork.
- TranslationPreservesMeaning: commands other than those with expires act on one keyspace in a way that depends on nothing else; integers are unbounded, so the overflow of expire times is not modelled.
- FileAndBufferAreLiveData: for runs in which what is written while the file is not off is storable, the snapshot of a fork recreates the data of that moment, the final read drains the pipe (AofReadDiffFromParent shows when it does) and no KEEPTTL meets a key with an expire (KeepTtlExample shows why). A run ends where the assertion about SET fails. MULTI and EXEC are events of their own, and no other command is written under these names.
- ReadCommand: lines longer than the buffer of 128 bytes are modelled, counts beyond the range of long are not.
- The statements about cut files are about files the server wrote itself, loaded with aof-load-truncated enabled.
- Timing of fsync in the background thread, latency samples and logging.
- The block structure of the rewrite buffer keeps used and free, not the ten megabytes of memory of each block.

ACL:

- SHA256 is any function that gives 64 hexadecimal digits; glob matching and the extraction of keys from a command are given.
- The log of denials, killing of connections, and the division of the ACL file into lines; identifiers beyond the bitmap.
- CommandsDescribed: for a table that stays as it is since the bits were set; UnloadIff says what taking a command out of it does.
- FileRoundTrip: for names, patterns and subcommands without separators and quotes; LineSplitsIff says that no other lines are divided as they were written. That no other line gives the same user by coincidence is not stated.

Blocked clients:

- One database; in BlockedProcess nodes of the waiting lists are values with identities. BlockedLists and Adlist prove on the heap, for one list at a time, that the node a client keeps is live and that deleting it is what BlockedProcess does by identity.
- ServeStreamKeepsLists: which clients a stream has entries for is given with the stream; identifiers of entries and consumer groups are not modelled.
- ServeClientsBlockedOnKeyByModule: clients blocked by modules; WAIT only blocks and leaves.
- RunKeepsOrder: the condition on each service is exact; over a run it is sufficient, since a later departure can put waiters in order again.
- Keys that expire while they are served, replication and notifications.

Bits:

- Machine words are natural numbers; shifts and masks are written as multiplication, division and digit-wise operations. The buffers are sequences where the source only reads them.
- Shifting a word by 64 gives any word, the same one throughout a command; compilers may do worse.
- Growing the string before a write, and parsing of the arguments of BITFIELD, BITPOS and BITCOUNT.

Event loop and packets:

- Reap: the exact condition on finalizers is given for those that do not process timers and for those that process them once while nothing but creation of timers happens; for others the condition is that the timer behind was not freed.
- ProcessTimeEvents: the exact condition for whole passes is given when one finalizer processes the timers and callbacks and the finalizers before it only create some; when later finalizers process them, too, only the failure of the first is stated. Reuse of freed memory by a new timer is not modelled; what happens after a freed timer was read is undefined, and the model stops there.
- File callbacks, epoll, kqueue and evport are left out.
- Resize: the limit of select's sets is checked only where the source checks it.
- Receive: a length shorter than the header is treated as a bad header, which is left to the unseen header check; the 32-bit sum of lengths does not wrap. After a bad header the result depends on how the stream was cut.

Configuration rewriting, the background I/O queue and the samples of chapters 1, 3 and 4 are left out: they would add only easy members.
