# Redis 6.2.0: cluster, append only file, checksums, ACL, bit operations and blocked clients

This project models the parts of Redis 6.2.0 (`redis-6.2.0/src`) whose correctness spans several
functions or several processes, and proves what they are for. `dafny verify dfyconfig.toml` checks it.

| component | modules | source |
|---|---|---|
| Cluster bus: epochs, elections, collisions | `ClusterBus`, `ClusterEpochs`, `ClusterElection`, `ClusterStrayVote`, `ClusterCollision`, `ClusterNode`, `ClusterWinners` | `cluster.c` |
| Hash slots | `SlotTable`, `SlotClaims` | `cluster.c` |
| Append only file | `AofFormat`, `AofLoader`, `AofTransactions`, `AofBuffers`, `AofReplay`, `AofRewrite` | `aof.c` |
| Checksums and dump payloads | `Words`, `Crc64`, `CrcSpeed`, `CrcCheck`, `DumpPayload` | `crc64.c`, `crcspeed.c`, `cluster.c` |
| ACL command rules | `AclRules`, `AclDescribe`, `AclMeaning` | `acl.c` |
| Bit operations | `BitField`, `BitFieldCommand`, `BitCount`, `BitScan` | `bitops.c` |
| Blocked clients, linked list | `BlockedIndex`, `BlockedClients`, `BlockedLists`, `BlockedServing`, `BlockedPop`, `AdList` | `blocked.c`, `t_list.c`, `db.c`, `adlist.c` |

## Main results

- **Elections.** The cluster is a state of nodes and messages in flight; a run is any interleaving of
  sending, receiving in any order, and local steps. Votes come from masters serving slots and only for
  requests not behind their epoch, promotions from replicas with more than half of the votes, both if and
  only if. Each master votes at most once per epoch, and an
  epoch has at most one winner in every run without *stray votes*: votes counted after the count was
  cleared and before the next election raised the epoch. A reachable state with two winners, in which
  their failed master neither votes nor changes, shows that the assumption cannot be dropped. In every state a node's count is the number of masters
  counted during its election, all of which voted for it in that epoch, plus its stray votes; so a
  promotion is the choice of a quorum if and only if its count reaches the quorum without the stray
  votes, and when all promotions of a run do, every epoch has at most one winner.
- **Epoch collisions.** When config epochs change only by collision handling, a master with r
  larger-named masters moves at most 2^r - 1 times; once the larger-named masters' current epochs have
  been heard, all config epochs are distinct.
- **Slots.** The slot table and the per-node bitmaps agree after every operation, and claims are
  confluent: whatever order they arrive in, the greatest epoch wins every slot.
- **From elections to slots.** Where config epochs come from such elections only, winners have pairwise
  different config epochs, so nodes that hear their slot claims in any order agree on every slot.
- **Background rewrite.** Over every interleaving of parent, child and pipes, with crashes and short
  writes, no fed byte is lost, repeated or reordered; loading any cut of the file, inside the snapshot
  or after it, runs a prefix of the commands, no transaction in part, each in the database it was fed
  for. (No MULTI inside a transaction, which the server never logs.)
- **Loading.** For every byte prefix of every log, what runs is what its complete commands
  run: those of a transaction only with its EXEC. Without the truncation option such a prefix is loaded
  if and only if it ends between two commands and outside all transactions; bytes that are not a
  command are refused after any log, with or without the option. The file left behind is closed again if and only if the log was not torn inside a transaction; otherwise
  commands appended later are swallowed by the open transaction.
- **CRC64.** The slice-by-8 forms of both byte orders equal the bitwise form for every length,
  alignment and start value, and every change within eight consecutive bytes anywhere in a dump
  payload, footer included, is detected.
- **ACL.** The described rules are all accepted and rebuild the same command bitmap and subcommands for
  every reachable user; the ALLCOMMANDS flag comes back if and only if the user has it or lacks a bit.
  After every rule list, what a user may run is decided by the last rule that covers the command and the
  subcommand rules after it.
- **BITFIELD.** Every list of operations acts as unbounded integers on an endless tape of bits. The
  code departs from its documentation for one family of saturating SETs, named exactly.
- **Blocked clients.** The index, counters and queues agree in every reachable state; serving ends,
  and afterwards no client waits for a list at a key that holds one. The replies account for every
  change: each is the value at the end its client asked for, of a list as the replies before left it.

## Where the code and its documentation part

The model follows the code.

- `bitops.c:329-331` says the increments are used only when they cannot overflow. For a signed SET far
  below the minimum, `max - value` wraps and the value is taken for one that is too high; a negative
  value of an unsigned field is taken for a huge one. Under SAT both store the maximum
  (`BitFieldCommand.AsDocumentedIff`). Signed overflow is modelled as two's complement wrap-around.
- `acl.c:397-406`: after `+@all -get +get` all bits are set but ALLCOMMANDS is not; the described rules
  set it (`AclDescribe.DescribeUserCommandRules`, `AclDescribe.FlagLost`).
- `aof.c:893-905` reverts an incomplete transaction at the end of the log, but a log torn inside a
  command of a transaction is cut after the last complete command, which leaves the transaction open
  (`AofLoader.LeftFileIsClosed`, `AofLoader.TornTransactionSwallows`).
- `cluster.c:1692-1694` takes a slot without an owner for one of a missing master: a replica whose master
  was forgotten follows the null pointer exactly when an unassigned slot that is not being imported is
  claimed (`SlotTable.Table.UpdateSlotsConfigWith`).
- `cluster.c:3182` clears the vote count, `cluster.c:3244` raises the election epoch; a vote of the
  former election that arrives in between is counted again (`ClusterStrayVote.TwoWinners`).

## Model

| member | source | states |
|---|---|---|
| Crc64.CrcReflect | redis-6.2.0/src/crc64.c:69-78 | The loop returns the bits in opposite order, for every width. |
| Crc64.BitwiseCrc | redis-6.2.0/src/crc64.c:88-111 | The most-significant-first loop with reflected input and output equals the reflected polynomial fold over the bytes. |
| Crc64.ReflectByte | redis-6.2.0/src/crc64.c:92-107 | Eight steps of the most-significant-first register are eight reflected steps. |
| Crc64.FoldInjective | redis-6.2.0/src/crc64.c:88-111 | With an odd polynomial the fold over any bytes is injective in the register. |
| Crc64.WindowInjective | redis-6.2.0/src/crc64.c:88-111 | The fold over at most eight bytes is injective in the bytes. |
| Crc64.BurstDetected | redis-6.2.0/src/crc64.c:88-111 | Two inputs that differ only inside a window of at most eight bytes have different checksums. |
| CrcSpeed.TableStep | redis-6.2.0/src/crcspeed.c:33-50 | One table lookup is eight bitwise steps. |
| CrcSpeed.SliceBy8 | redis-6.2.0/src/crcspeed.c:122-135 | Eight lookups of the eight tables, combined, are 64 bitwise steps. |
| CrcSpeed.LittleInit | redis-6.2.0/src/crcspeed.c:33-50 | Table n, entry i is i run through 8(n+1) bitwise steps. |
| CrcSpeed.BigInit | redis-6.2.0/src/crcspeed.c:87-95 | The same entries with their bytes reversed. |
| CrcSpeed.Rev8Involutive | redis-6.2.0/src/crcspeed.c:71-83 | Reversing the bytes of a word twice gives the word back. |
| CrcSpeed.Little | redis-6.2.0/src/crcspeed.c:112-144 | For every address, length and start value the little-endian path equals the bitwise fold. |
| CrcSpeed.Big | redis-6.2.0/src/crcspeed.c:183-213 | The big-endian path on byte-reversed tables returns the same value. |
| CrcSpeed.NativeInit | redis-6.2.0/src/crcspeed.c:270-275 | The tables of the machine's byte order. |
| CrcSpeed.Native | redis-6.2.0/src/crcspeed.c:253-259 | In either byte order the result is the bitwise fold. |
| CrcSpeed.Crc64Test | redis-6.2.0/src/crc64.c:130-151 | The bitwise and the table form return the same value from zero for every input. |
| CrcCheck.CheckValue | redis-6.2.0/src/crc64.c:134-137 | The checksum of "123456789" is e9c6d914c4b8d9ca. |
| DumpPayload.CreateDumpPayload | redis-6.2.0/src/cluster.c:5010-5037 | The payload begins with the value, then comes the version, low byte first, and it is accepted. |
| DumpPayload.VerifyDumpPayload | redis-6.2.0/src/cluster.c:5043-5063 | Accepts exactly payloads of at least ten bytes whose version is not newer and, unless checksums are skipped, whose last eight bytes are the checksum of all others, low byte first. |
| DumpPayload.CorruptionDetected | redis-6.2.0/src/cluster.c:5043-5063 | Any change within eight consecutive bytes, in the value, the version, the stored checksum or across them, makes an accepted payload unacceptable. |
| DumpPayload.AcceptedFoldsToZero | redis-6.2.0/src/cluster.c:5043-5063 | The checksum run over a whole accepted payload, stored checksum included, is zero. |
| DumpPayload.OneByteDetected | redis-6.2.0/src/cluster.c:5043-5063 | Changing one byte anywhere makes an accepted payload unacceptable. |
| ClusterBus.ApplyWellFormed | redis-6.2.0/src/cluster.c:1724-2211 | Every enabled step keeps nodes, tallies and message addresses consistent. |
| ClusterEpochs.EpochsBounded | redis-6.2.0/src/cluster.c:1801-1812 | In every state of every run each config epoch a node knows is at most its current epoch, and the epochs of a message are at most the message's current epoch. |
| ClusterEpochs.EpochMonotonic | redis-6.2.0/src/cluster.c:1801-1806 | A node's current epoch never decreases along a run. |
| ClusterEpochs.PingTeaches | redis-6.2.0/src/cluster.c:1798-1812 | In every state of every run any node can ping any other, and a receiver that knows the sender then knows epochs not behind the announced ones. |
| ClusterEpochs.UpdateTeaches | redis-6.2.0/src/cluster.c:2176-2190 | The same for an UPDATE about a third node. |
| ClusterEpochs.NextEpochIsNewest | redis-6.2.0/src/cluster.c:1090-1107 | An epoch taken without consensus is greater than every epoch the node knows. |
| ClusterElection.OneVotePerEpoch | redis-6.2.0/src/cluster.c:2866-2967 | In every run a master votes for at most one candidate per epoch. |
| ClusterElection.GrantedIff | redis-6.2.0/src/cluster.c:2874-2967 | In every run the votes a step adds are those of a master serving slots that hears a request of an epoch not behind its own, in which it has not voted; and every such request it is willing to answer adds one. |
| ClusterElection.WonIff | redis-6.2.0/src/cluster.c:3250-3271 | In every run the elections a step adds to those won are those of a replica that has asked for votes and counted more than half of the masters. |
| ClusterElection.TwoWinnersNeedStrayVotes | redis-6.2.0/src/cluster.c:3178-3271 | Two different winners of one epoch imply that one of them counted a stray vote. |
| ClusterElection.OneWinnerPerEpoch | redis-6.2.0/src/cluster.c:3178-3271 | In every run without stray votes an epoch has at most one winner. |
| ClusterElection.CountIsExact | redis-6.2.0/src/cluster.c:2145-2157 | In every state the vote count is the number of masters counted since it was cleared while the election was under way, all of which voted for the node in its election epoch, plus the stray votes since; it is that number if and only if there were none. |
| ClusterElection.WonByQuorumIff | redis-6.2.0/src/cluster.c:3250-3271 | The masters counted for a promotion are a quorum if and only if the count reaches the quorum without the stray votes. |
| ClusterElection.OneWinnerByQuorum | redis-6.2.0/src/cluster.c:3178-3271 | When that holds for every promotion of a run, an epoch has at most one winner. |
| ClusterStrayVote.TwoWinners | redis-6.2.0/src/cluster.c:3178-3193 | A concrete reachable state in which two replicas of a failed master won the same epoch, while that master neither votes nor changes. |
| ClusterCollision.BoundedMoves | redis-6.2.0/src/cluster.c:1155-1170 | When config epochs change only by collision handling, a master with r larger-named masters moves at most 2^r - 1 times. |
| ClusterCollision.DistinctOnceHeard | redis-6.2.0/src/cluster.c:2091-2096 | Once every master has heard the current config epoch of every larger-named master, all config epochs are distinct. |
| ClusterCollision.HeldSize | redis-6.2.0/src/cluster.c:1155-1170 | A master has held one more epoch than the moves it made, and its present one is the greatest. |
| ClusterCollision.PingHeld | redis-6.2.0/src/cluster.c:2404-2477 | A ping in flight carries an epoch its sender has held. |
| ClusterNode.LocalNode.GetMaxEpoch | redis-6.2.0/src/cluster.c:1046-1059 | The result is the greatest of the current epoch and all known config epochs. |
| ClusterNode.LocalNode.BuildMessageHdr | redis-6.2.0/src/cluster.c:2404-2457 | A replica announces the config epoch of its master, every other node its own; as the bus step does. |
| ClusterNode.LocalNode.SetConfigEpoch | redis-6.2.0/src/cluster.c:4935-4970 | Accepted exactly for a node that knows nobody and has no epoch; the current epoch is not left behind. |
| ClusterNode.LocalNode.BumpConfigEpochWithoutConsensus | redis-6.2.0/src/cluster.c:1090-1107 | The node keeps its epoch exactly when it is positive and the greatest it knows; otherwise it takes the next one, as the bus step does. |
| ClusterNode.LocalNode.HandleConfigEpochCollision | redis-6.2.0/src/cluster.c:1155-1170 | Of two masters with one epoch exactly the one with the smaller name takes the next epoch, as in the bus step. |
| ClusterNode.LocalNode.AbsorbHeader | redis-6.2.0/src/cluster.c:1798-1812 | Current epoch and the sender's config epoch become the greater of known and heard, as in the bus. |
| ClusterNode.LocalNode.ProcessPing | redis-6.2.0/src/cluster.c:2033-2096 | The epochs are learned, a demoted node stops serving and replicates the sender, and a master whose epoch the larger-named sender claims as its newest takes the next epoch, as in the bus step. |
| ClusterNode.LocalNode.ProcessUpdate | redis-6.2.0/src/cluster.c:2176-2197 | The epoch of a known node is learned exactly if newer, and only then may the node be demoted; as in the bus step. |
| ClusterNode.LocalNode.SendFailoverAuthIfNeeded | redis-6.2.0/src/cluster.c:2866-2967 | A vote is sent if and only if the node is a master serving slots, the request's epoch is not behind and not the one voted in last, the candidate is a replica whose master failed, its slots are current and no vote about that master is recent; epoch and time of the vote are recorded. It is the vote of the bus step. |
| ClusterNode.LocalNode.ProcessAck | redis-6.2.0/src/cluster.c:2145-2157 | The count grows by one exactly for a vote of the electorate in an epoch not before the election's, as in the bus step. |
| ClusterNode.LocalNode.HandleSlaveFailover | redis-6.2.0/src/cluster.c:3106-3275 | Each call schedules, starts or wins an election, exactly under its conditions on time, rank delay, quorum and role, or changes nothing; the fields change as in the bus step, and a promotion is one the bus allows. |
| SlotTable.Table.AddNode | redis-6.2.0/src/cluster.c:964-970 | The node is known with no slots; table and bitmaps agree. |
| SlotTable.Table.AddSlot | redis-6.2.0/src/cluster.c:3858-3863 | A free slot is assigned and a slot with an owner refused; table and bitmaps agree. |
| SlotTable.Table.DelSlot | redis-6.2.0/src/cluster.c:3868-3875 | The slot is released; the owner's bit is always found set. |
| SlotTable.Table.DelNodeSlots | redis-6.2.0/src/cluster.c:3879-3889 | Exactly the slots of the node are released, and counted. |
| SlotTable.Table.UpdateSlotsConfigWith | redis-6.2.0/src/cluster.c:1619-1713 | A claimed slot goes to the claimant exactly if it is not being imported and has no owner or one with an older epoch, every other slot keeps its owner; the node becomes a replica exactly when the claim took the last slot of itself or its master; otherwise the slots lost with keys are listed in order; a null master is followed exactly when a replica without one sees an unassigned, not imported slot claimed. |
| SlotTable.Table.ProcessClaim | redis-6.2.0/src/cluster.c:2033-2043 | The sender's epoch is learned, then all of that holds, also when the claim is skipped as unchanged; migrations are closed exactly when a master is demoted. |
| SlotTable.Table.FailoverReplaceYourMaster | redis-6.2.0/src/cluster.c:3068-3096 | The replica takes every slot of its master and no other. |
| SlotTable.Table.DelNode | redis-6.2.0/src/cluster.c:983-1010 | The node is gone, its slots are unassigned and nothing refers to it. |
| SlotTable.Table.Reset | redis-6.2.0/src/cluster.c:558-610 | A master that knows only itself and owns nothing; its epoch is kept, or zero after a hard reset. |
| SlotTable.Table.CloseAllSlots | redis-6.2.0/src/cluster.c:3893-3898 | No slot is importing or migrating. |
| SlotClaims.NewestClaimWins | redis-6.2.0/src/cluster.c:1619-1679 | Claims with pairwise different epochs, in any order and with repeats, bind each slot to the claimant with the greatest epoch; unclaimed slots stay unassigned. |
| SlotClaims.OrderIrrelevant | redis-6.2.0/src/cluster.c:1619-1679 | Two nodes that heard the same claims in any orders agree on every slot. |
| SlotClaims.HearClaims | redis-6.2.0/src/cluster.c:2033-2043 | A table that handles a list of claims ends with their joint effect, and from an unassigned table with the newest claimant of every slot; only a replica without a master can break off. |
| ClusterWinners.WinnersDiffer | redis-6.2.0/src/cluster.c:3250-3271 | Where config epochs come from elections only and every promotion has a quorum without stray votes, winners have pairwise different config epochs in every state. |
| ClusterWinners.WinnersSettleSlots | redis-6.2.0/src/cluster.c:1619-1679 | Nodes without assigned slots that hear the claims of election winners, in any order, agree, and the greatest epoch wins every slot. |
| AofFormat.AtoiDecimal | redis-6.2.0/src/aof.c:538-561 | A written number is read back, whatever non-digit follows. |
| AofFormat.AtoiAny | redis-6.2.0/src/aof.c:816 | White space and a sign may precede a number. |
| AofFormat.LongLine | redis-6.2.0/src/aof.c:808 | A line without a newline in reach is cut after 127 bytes. |
| AofFormat.CatAppendOnlyGenericCommand | redis-6.2.0/src/aof.c:538-561 | Appends the encoding of the arguments. |
| AofFormat.ParseCommand | redis-6.2.0/src/aof.c:793-855 | A complete command uses at least one byte and not more than there are, and has arguments; the end of the file is reported exactly for an empty rest. |
| AofFormat.ParseEncoded | redis-6.2.0/src/aof.c:793-855 | A written command is parsed to the same arguments and length, whatever follows. |
| AofFormat.ParseCut | redis-6.2.0/src/aof.c:914-945 | Every proper non-empty beginning of a written command is recognised as torn. |
| AofLoader.LoadAppendOnlyFile | redis-6.2.0/src/aof.c:739-957 | The loop computes the loading function: commands run, truncation offset, or refusal. What that is for every log is stated by LoadEntries, StrictPrefix and the refusals below. |
| AofLoader.RoundTrip | redis-6.2.0/src/aof.c:793-891 | A log without transactions is loaded as exactly its commands. |
| AofLoader.RoundTripNested | redis-6.2.0/src/aof.c:793-891 | A log with closed transactions is loaded as its commands without MULTI and EXEC. |
| AofLoader.LoadWhole | redis-6.2.0/src/aof.c:793-945 | From any byte prefix exactly the commands before the last point outside all transactions run, so a transaction runs as a whole or not at all. |
| AofLoader.LoadPrefix | redis-6.2.0/src/aof.c:914-945 | For any byte prefix of any log, the loader runs what the complete commands in it run and cuts after them. |
| AofLoader.LoadMultiFreePrefix | redis-6.2.0/src/aof.c:914-945 | Without transactions exactly the complete commands run, and the truncation offset is their end. |
| AofLoader.LeftFileIsClosed | redis-6.2.0/src/aof.c:893-945 | The file left behind loads again without a cut as what was loaded, if and only if the log was not torn inside a transaction. |
| AofLoader.TornTransactionSwallows | redis-6.2.0/src/aof.c:893-945 | After a tear inside a transaction, commands appended to the file are not run on the next load, up to the next EXEC. |
| AofLoader.TornTransactionExample | redis-6.2.0/src/aof.c:893-945 | A concrete log of that kind. |
| AofTransactions.LoadEntries | redis-6.2.0/src/aof.c:793-950 | For every log of commands and transactions, however it ends and with or without the truncation option: the commands of the finished entries run and no others; the file is whole, cut behind the last entry or the last command, or refused. |
| AofLoader.StrictPrefix | redis-6.2.0/src/aof.c:897-949 | Without the truncation option a byte prefix of a log is loaded, as all of its commands, if it ends between two commands outside all transactions, and refused otherwise. |
| AofLoader.StrictTail | redis-6.2.0/src/aof.c:897-949 | Without the option a torn or open log is refused, a closed one loaded. |
| AofLoader.BadStartRefused | redis-6.2.0/src/aof.c:814 | After any log, bytes that do not begin a command are refused, with or without the option. |
| AofLoader.NulRefused | redis-6.2.0/src/aof.c:815 | So is a command line that begins with a zero byte, unless the file ends there. |
| AofLoader.NoArgumentsRefused | redis-6.2.0/src/aof.c:816-817 | So is a command of no arguments. |
| AofLoader.BadArgumentRefused | redis-6.2.0/src/aof.c:826-837 | So is a command that breaks off into something that is not an argument, after any number of its arguments. |
| AofBuffers.RewriteBuffer.Append | redis-6.2.0/src/aof.c:125-169 | The contents grow by the given bytes; no block exceeds its size. |
| AofBuffers.RewriteBuffer.ChildWriteDiffData | redis-6.2.0/src/aof.c:95-122 | Whatever the writes do, sent bytes followed by the remaining contents are the former contents; nothing is sent after the stop, and everything once the pipe takes it. |
| AofBuffers.RewriteBuffer.Write | redis-6.2.0/src/aof.c:174-194 | Succeeds exactly when every block is written whole, and then exactly the contents were written. |
| AofBuffers.AofFile.Feed | redis-6.2.0/src/aof.c:651-655 | The buffer grows by the given bytes. |
| AofBuffers.AofFile.AofWrite | redis-6.2.0/src/aof.c:308-325 | The file grows by what a sequence of short and interrupted writes manages before a failure, and that is reported. |
| AofBuffers.WrittenIs | redis-6.2.0/src/aof.c:308-325 | What is written is what the calls before the first failure take, interrupted ones repeated and short ones continued, as far as there is something to write. |
| AofBuffers.AllWholeIff | redis-6.2.0/src/aof.c:174-194 | Every block is written whole exactly if there is a call for each block that holds something, and none of them is short. |
| AofBuffers.AofFile.Flush | redis-6.2.0/src/aof.c:402-503 | For every outcome of write and truncate, file and buffer together are all bytes fed, the recorded size is the file's length, and a partial write is undone exactly when truncating works. |
| AofReplay.FeedAppendOnlyFile | redis-6.2.0/src/aof.c:599-665 | The command is logged, preceded by a SELECT exactly when the log is in another database. |
| AofReplay.ReplayAll | redis-6.2.0/src/aof.c:599-665 | Replaying a stretch of the log runs each command in the database it was fed for, from any starting database. |
| AofRewrite.FeedCommand | redis-6.2.0/src/aof.c:645-665 | Feeding the buffer of the file and the differences of the child is the feeding step of the protocol. |
| AofRewrite.FlushFile | redis-6.2.0/src/aof.c:402-503 | A flush that does not end the server is the flushing step, whatever the writes do. |
| AofRewrite.SendDifferences | redis-6.2.0/src/aof.c:95-122 | A write to the pipe is the sending step; after the stop nothing is sent. |
| AofRewrite.Conserved | redis-6.2.0/src/aof.c:1589-1631 | In every state of every run, file, buffer, child, pipe and blocks hold what was fed, once and in order. |
| AofRewrite.DiffIsSplit | redis-6.2.0/src/aof.c:95-194 | The bytes fed since the fork are the child's diff, the pipe and the parent's blocks, in this order. |
| AofRewrite.Rewritten | redis-6.2.0/src/aof.c:1837-1958 | A successful rewrite leaves the snapshot followed by every byte fed since the fork. |
| AofRewrite.NotRewritten | redis-6.2.0/src/aof.c:1837-1958 | A rewrite that fails, in the child or in the parent, leaves file, buffer and what they stand for as they were. |
| AofRewrite.CanFinish | redis-6.2.0/src/aof.c:1589-1631 | While the child is writing, in every state of every run, parent and child can complete the rewrite by themselves, with every byte fed so far in the file. |
| AofRewrite.ReplaysInOrder | redis-6.2.0/src/aof.c:1781-1785 | The log and the diff of a running rewrite replay each command in its database. |
| AofRewrite.CrashConsistent | redis-6.2.0/src/aof.c:1837-1958 | Loading any cut of file and flushed buffer runs the commands of snapshot and log up to a point outside all transactions; those fed since the snapshot are the first ones fed, each in its database; without a cut and with no open transaction, all of them. |
| AclRules.SetUserOk | redis-6.2.0/src/acl.c:824-1011 | Every rule keeps the bitmap, flag and subcommands of a user consistent. |
| AclRules.ReachedOk | redis-6.2.0/src/acl.c:824-1011 | So every user reachable by rules from a fresh one is consistent. |
| AclRules.SameNameIff | redis-6.2.0/src/acl.c:711-738 | Names are the same exactly if they differ in the case of ASCII letters only. |
| AclMeaning.SingleEffect | redis-6.2.0/src/acl.c:947-953 | For any user: the bit of the command and no other is set or cleared, and none of its subcommands stays listed, whether or not the bit changed. |
| AclMeaning.SubEffect | redis-6.2.0/src/acl.c:955-982 | For any user: of a command that is off the subcommand is listed afterwards, behind the earlier ones unless it is one of them; a command that is on stays as it is. |
| AclMeaning.CategoryEffect | redis-6.2.0/src/acl.c:414-429 | For any user: exactly the commands of the category that are not from a module are set or cleared and lose their subcommands. |
| AclMeaning.LastRuleDecides | redis-6.2.0/src/acl.c:824-1011 | After every rule list, the last rule that covers a command decides whether it is on; one that none covers is off. |
| AclMeaning.ListedIff | redis-6.2.0/src/acl.c:955-982 | After every rule list, a subcommand is listed exactly if a rule names it after the last rule that covers its command, and the command is off. |
| AclMeaning.MayRunIff | redis-6.2.0/src/acl.c:1184-1209 | What every rule list allows: a command with any arguments if its last covering rule is a plus rule, otherwise with the first arguments named after that rule. |
| AclMeaning.CheckCommandPerm | redis-6.2.0/src/acl.c:1177-1209 | A command is allowed exactly by the flag, its bit or a listed first argument; AUTH always is. |
| AclDescribe.Permissions.SetCommandBit | redis-6.2.0/src/acl.c:397-406 | Sets one bit in place; clearing drops the ALLCOMMANDS flag. |
| AclDescribe.Permissions.SetCategoryBits | redis-6.2.0/src/acl.c:414-429 | Sets the bits of exactly the commands of the category. |
| AclDescribe.Permissions.AddAllowedSubcommand | redis-6.2.0/src/acl.c:711-738 | Adds a subcommand once. |
| AclDescribe.Permissions.Set | redis-6.2.0/src/acl.c:945-1011 | In place application of a rule equals the rule's effect on the value, which SingleEffect, SubEffect and CategoryEffect state; refused rules change nothing. |
| AclDescribe.Permissions.CountCategoryBits | redis-6.2.0/src/acl.c:435-455 | Counts the commands of the category that are allowed and that are not. |
| AclDescribe.UnderstoodIsAccepted | redis-6.2.0/src/acl.c:824-1011 | A rule is accepted exactly when its command, category or subcommand is known. |
| AclDescribe.BestCategory | redis-6.2.0/src/acl.c:510-538 | Among the unused categories that fix more commands than they break, the one with the fewest differences, then the most in common; none exactly when there is none. |
| AclDescribe.AddCategories | redis-6.2.0/src/acl.c:503-555 | The category loop ends, and the fake user equals the user rebuilt from the rules. |
| AclDescribe.FixCommand | redis-6.2.0/src/acl.c:557-584 | After a command is handled, its bit and subcommands are those of the user. |
| AclDescribe.DescribeUserCommandRules | redis-6.2.0/src/acl.c:464-603 | Applying the rules in order to a fresh user gives the same bitmap and subcommands; all rules are accepted and the panic is unreachable; the ALLCOMMANDS flag is rebuilt if and only if the user has it or lacks some bit. |
| AclDescribe.FlagLost | redis-6.2.0/src/acl.c:397-406 | A reachable user whose flag is not rebuilt. |
| BitField.SetUnsignedBitfield | redis-6.2.0/src/bitops.c:209-222 | In place on the bytes, exactly the field's positions of the tape change, to the low bits of the value. |
| BitField.SetSignedBitfield | redis-6.2.0/src/bitops.c:224-227 | The same for a negative value in two's complement. |
| BitField.GetUnsignedBitfield | redis-6.2.0/src/bitops.c:229-241 | The number read from the field's positions. |
| BitField.GetSignedBitfield | redis-6.2.0/src/bitops.c:243-263 | The two's complement reading of the field, for every width up to 64. |
| BitField.ReadWrite | redis-6.2.0/src/bitops.c:209-241 | A field reads back the value modulo 2^bits, and no disjoint field changes. |
| BitFieldCommand.GetBitfieldType | redis-6.2.0/src/bitops.c:449-473 | A type is accepted exactly for i1 to i64 and u1 to u63, the operations modelled. |
| BitFieldCommand.CheckUnsignedBitfieldOverflow | redis-6.2.0/src/bitops.c:288-323 | Despite 64-bit wrap-around, the result tells where the exact sum lies and the limit is the wrapped or saturated value. |
| BitFieldCommand.CheckSignedBitfieldOverflow | redis-6.2.0/src/bitops.c:325-377 | The same, except for values for which max - value leaves 64 bits, which count as too high. |
| BitFieldCommand.FoldInRange | redis-6.2.0/src/bitops.c:314-376 | Wrapping yields the one number in range congruent to the exact result. |
| BitFieldCommand.StoredReadsBack | redis-6.2.0/src/bitops.c:209-263 | A stored number in range is the number read back. |
| BitFieldCommand.ApplySigned | redis-6.2.0/src/bitops.c:1054-1084 | SET replies the value the field had, INCRBY the one it has now; a number in range is stored, otherwise FAIL replies null and changes nothing, WRAP stores the congruent number of the range and SAT the nearest end, misjudged SETs aside; no other field changes. |
| BitFieldCommand.ApplyUnsigned | redis-6.2.0/src/bitops.c:1084-1113 | The same for unsigned fields. |
| BitFieldCommand.ApplyGet | redis-6.2.0/src/bitops.c:1115-1148 | Reading through the zero padded nine byte window gives the value on the endless tape. |
| BitFieldCommand.GrowForBits | redis-6.2.0/src/bitops.c:480-493 | Growing the string leaves the tape as it is. |
| BitFieldCommand.Bitfield | redis-6.2.0/src/bitops.c:934-1157 | Replies and final tape of any list of operations are those of the run on the endless tape; BITFIELD_RO refuses exactly lists with writes. |
| BitFieldCommand.RunObeys | redis-6.2.0/src/bitops.c:1040-1149 | Every operation of such a run obeys that law on the string its predecessors left, and is answered in its turn. |
| BitFieldCommand.AsDocumentedIff | redis-6.2.0/src/bitops.c:288-377 | An operation does as documented if and only if it is not a saturating SET of a value taken for too high. |
| BitFieldCommand.RunAsDocumented | redis-6.2.0/src/bitops.c:1040-1149 | A command without such operations does as documented. |
| BitFieldCommand.NegativeSetSaturatesHigh | redis-6.2.0/src/bitops.c:288-301 | A concrete operation that does not: SET u8 -1 under SAT. |
| BitFieldCommand.LeastSetSaturatesHigh | redis-6.2.0/src/bitops.c:325-349 | A concrete signed operation that does not: SET i8 of the least 64-bit number under SAT. |
| BitCount.RedisPopcount | redis-6.2.0/src/bitops.c:40-92 | For every length and alignment the result is the number of positions of the string that hold a one. |
| BitCount.CountBlock | redis-6.2.0/src/bitops.c:54-87 | The masked 32-bit arithmetic on seven words counts the ones in 28 bytes. |
| BitCount.CountBytes | redis-6.2.0/src/bitops.c:66-83 | Three masked steps leave the number of ones of each byte in its lane. |
| BitCount.TopLane | redis-6.2.0/src/bitops.c:80-86 | Multiplying by 0x01010101 adds the lanes in the top byte without carries. |
| BitScan.RedisBitpos | redis-6.2.0/src/bitops.c:101-186 | The first position of the bit on the zero padded tape; -1 exactly when a one is wanted and there is none; the panic is unreachable. |
| BitScan.LoadBigEndian | redis-6.2.0/src/bitops.c:151-159 | The word holds the next 64 positions, zero padded. |
| BitScan.Bitop | redis-6.2.0/src/bitops.c:629-757 | Every bit of the result is set exactly when it is in all, some, an odd number or not in the sources, with missing and short sources read as zeros. |
| BitScan.FastPath | redis-6.2.0/src/bitops.c:671-731 | The four-words-at-a-time path agrees with the byte loop on what it covers. |
| BitScan.CombineByte | redis-6.2.0/src/bitops.c:734-757 | Leaving the loop early does not change the byte. |
| BlockedClients.Server.constructor | redis-6.2.0/src/blocked.c:89-101 | The initial state satisfies the invariant. |
| BlockedClients.Server.BlockClient | redis-6.2.0/src/blocked.c:89-101 | Flag, type, counters and pause list change together; the invariant holds. |
| BlockedClients.Server.BlockForKeys | redis-6.2.0/src/blocked.c:613-656 | The client is blocked with its target and the ends it asked for, and appended once to the list of each key, repeated keys ignored, with its node in its table; nobody else changes and the invariant holds. |
| BlockedClients.Server.UnblockClientWaitingData | redis-6.2.0/src/blocked.c:660-694 | The client leaves every waiter list, the order of the others is kept and empty lists go. |
| BlockedClients.Server.UnblockClient | redis-6.2.0/src/blocked.c:175-199 | The client leaves all queues of its kind of blocking and is queued for reprocessing once; the invariant holds. |
| BlockedClients.Server.QueueClientForReprocessing | redis-6.2.0/src/blocked.c:164-171 | A queued client is not queued again. |
| BlockedClients.Server.ProcessUnblockedClients | redis-6.2.0/src/blocked.c:120-146 | Every queued client is processed once, in order, and the queue is empty. |
| BlockedIndex.IndexRemove | redis-6.2.0/src/blocked.c:669-680 | Taking a client out of a list and the key out of its table keeps the two-way index. |
| BlockedIndex.IndexAdd | redis-6.2.0/src/blocked.c:625-654 | So does adding it. |
| BlockedServing.SignalKeyAsReady | redis-6.2.0/src/blocked.c:713-749 | The key is queued exactly when a client could be waiting for it and it is not queued yet. |
| BlockedServing.SignalCovers | redis-6.2.0/src/blocked.c:696-735 | The early returns never skip a key somebody waits for, whatever type of object the client waits for. |
| BlockedServing.Push | redis-6.2.0/src/db.c:184-191 | A push keeps the invariant: nobody who can be served is forgotten. |
| BlockedServing.LmoveHandlePush | redis-6.2.0/src/t_list.c:718-735 | The destination list is created and signalled if needed and grows by the value. |
| BlockedServing.ServeClientBlockedOnList | redis-6.2.0/src/t_list.c:857-908 | The value goes to the client or to the destination; a destination of another type is an error and changes nothing. |
| BlockedServing.ServeFirst | redis-6.2.0/src/blocked.c:275-298 | The first waiter is unblocked and gets the popped value, or the list is as before. |
| BlockedServing.ServeNext | redis-6.2.0/src/blocked.c:261-303 | The waiter list exists as long as waiters are left to look at; clients of other types go to its end. |
| BlockedServing.ServeClientsBlockedOnListKey | redis-6.2.0/src/blocked.c:253-310 | Waiters are served in the order they came; afterwards there is no list or nobody waiting for one at the key. |
| BlockedServing.HandleClientsBlockedOnKeys | redis-6.2.0/src/blocked.c:531-584 | The loop ends with no ready keys, and no client waits for a list at a key that has one. The replies account for every change of lists and clients: each client got at most one and is unblocked by it, and each is the value at the end it asked for, of a list it waited for as the replies before left it, handed over or put at the end asked for of its target. |
| BlockedPop.BlockPushServe | redis-6.2.0/src/blocked.c:531-584 | A client blocks, any list is pushed, the client is served: it gets the first or the last value, as it asked, the others stay in order, and a target gets the value at the end asked for; a target that is no list is reported and nothing is taken. |
| BlockedPop.PushAll | redis-6.2.0/src/t_list.c:224-248 | Pushed values make up the new list, in order. |
| BlockedLists.PutBack | redis-6.2.0/src/blocked.c:289-297 | Undoing a pop at the same end gives the list back. |
| AdList.List.AddNodeHead | redis-6.2.0/src/adlist.c:89-107 | A new node in front; all links consistent. |
| AdList.List.AddNodeTail | redis-6.2.0/src/adlist.c:115-133 | A new node at the end. |
| AdList.List.InsertNode | redis-6.2.0/src/adlist.c:135-162 | A new node directly before or after the given one. |
| AdList.List.DelNode | redis-6.2.0/src/adlist.c:168-181 | Exactly the node is gone; only its neighbours and the list are written. |
| AdList.List.RotateTailToHead | redis-6.2.0/src/adlist.c:331-343 | The last node comes first. |
| AdList.List.RotateHeadToTail | redis-6.2.0/src/adlist.c:346-358 | The first node comes last. |
| AdList.List.Join | redis-6.2.0/src/adlist.c:362-378 | The nodes of the other list follow, and it is empty. |
| AdList.List.Empty | redis-6.2.0/src/adlist.c:57-72 | The walk over the nodes stays inside the list, which is then empty. |
| AdList.List.Index | redis-6.2.0/src/adlist.c:316-328 | The node at the index, from the tail if negative, or null out of range. |
| AdList.Next | redis-6.2.0/src/adlist.c:230-241 | Returns the current node and moves past it first. |
| AdList.SweepFromHead | redis-6.2.0/src/adlist.c:216-241 | Iterating and deleting any choice of the returned nodes visits every original node once in order and keeps exactly the others. |
| AdList.SweepFromTail | redis-6.2.0/src/adlist.c:216-241 | The same in the opposite direction. |
| AdList.SearchKey | redis-6.2.0/src/adlist.c:291-309 | The first matching node, or null if none matches. |
| AdList.Dup | redis-6.2.0/src/adlist.c:251-280 | A fresh list with the duplicated values, or null exactly when a duplicate fails; the original is not written. |

## Left out

- Restarts of cluster nodes and the persisted configuration: nodes of a run keep their state.
- Hard reset, manual failover and CLUSTER admin commands as steps of a run: they break the assumptions of the protocol.
- Reset: the new random name after a hard reset is not modelled.
- Cluster gossip, handshakes, links, failure detection and election delays: schedules are arbitrary instead.
- ProcessUpdate: the roles of other nodes and the rebinding itself are not modelled; the demotion it may cause is a parameter.
- DelNode: failure reports of other nodes are not modelled.
- FeedAppendOnlyFile: EXPIRE and SET with expiry are not rewritten first; commands are fed as they are logged.
- LoadAppendOnlyFile: the RDB preamble and the refusal of unknown commands are not modelled.
- ParseCommand: a negative argument length, for which the server ends for lack of memory, counts as malformed.
- Encodable: numbers longer than 19 digits, where atoi and strtol overflow, are not covered by the round trip.
- Flush: postponing it during a background fsync, and fsync itself, are not modelled; ending the server is the exit flag.
- Pipe read errors other than an empty pipe, and turning the append only file off during a rewrite.
- crcspeed16 and the 16-bit checksum of key slots.
- ACL passwords, key and channel patterns, files, and splitting rule strings into tokens.
- SetUserOk: command ids stay below the last bit, which stands for commands of the future.
- RedisPopcount: words are loaded little-endian; the count does not depend on the byte order.
- Bitfield: parsing of arguments, the key space and the count of changes are not modelled.
- Bitop: storing the result, and the replacement of the fast path on processors that need aligned access.
- ProcessUnblockedClients: the input of the clients is not processed, so nobody blocks again meanwhile.
- HandleClientsBlockedOnKeys: waiters for sorted sets, streams and modules are kept but not served.
- Waiting for replicas, timeouts, replies on timeout and statistics of blocked clients.
- BlockForKeys: waiter lists are sequences of nodes with identities; the linked list itself is the subject of AdList.
- AdList nodes keep the value they were created with; memory is not freed.
- bio.c, networking, event loops and the web application around the vendored server.
