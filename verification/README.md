# SLFS in Dafny

SLFS stores files and directories as fixed-size blocks on remote storage nodes (SSBD). A data
function writes blocks with two-phase commit, keeps directories as files of 64-byte records and
caches blocks; a proxy guards opens and renames and hands jobs to workers; clients find the
proxy of a key on a hash ring. This project models those parts and proves what they keep, over
all inputs and all runs. `dafny verify dfyconfig.toml` checks it.

The layers build on each other:

- `ByteSeq`, `BlockWalk`, `StorageKey`: byte buffers, the walk over the blocks of a range with its
  loops, and the strings that name records.
- `BlockRecord`, `Ssbd`: one block's record and its handlers; the storage node over two flat
  key-value databases, proved to act on single records.
- `TwoPhaseCommit`, `CommitDecision`, `CommitOrder`: coordinators and nodes as a state machine, one
  message per step, proved to refine a store on which whole transactions act at once; when a
  transaction commits; which orders of messages keep a prepare from meeting another transaction.
- `FlatFile`, `StripedRead`, `ReadBack`: that store refines flat byte arrays, reads return their
  slices, and a committed write reads back.
- `Directory`, `DirectoryRun`, `FileSystem`: directory bytes as name maps, and the re-read loop.
- `StoredFiles`, `Leftovers`: the blocks a run of the protocol leaves, and what empty blocks of
  aborted transactions look like to a later read.
- `Metadata`, `MetadataEffect`, `MetadataCommit`, `MetadataRun`, `Overlap`: the create, delete, write,
  rename and init operations on stored files, what they leave under each name, their transactions
  in the commit protocol, their runs as runs on maps, and operations that overlap between their
  reads and their decisions.
- `LruCache`, `BlockCache`, `CacheWrite`, `CacheTable`, `CacheHandOver`, `CacheFill`, `TableScan`: the
  linked recency list on the heap, the block cache around it and the writes that fill it, the table
  that hands a cache to another worker, and the proxy's scan of that table.
- `Proxy`, `Jobs`, `Ring`: the proxy's guard, its job hand-off, and the hash ring.
- `Cases`: single inputs at which the program does less than its names promise, and the bytes of a
  cache table.

What the results assume, in the code's own terms where it ensures them:

- Messages and callbacks are atomic steps, and all prepares of a transaction are counted before
  its first vote is handled. A failed prepare counts as a refusal, whether or not it arrived.
- A prepare reaches a node when no other transaction is prepared on its block there.
  `CommitOrder.NetRunIsValid` says which orders ensure it, and what happens otherwise is stated by
  `BlockRecord.CommitInstallsOwnWrite`.
- For `MetadataRun`: between the reads of an operation and its decision no other operation ends on
  the keys it read. The code does not ensure that, as only the starts of requests are queued per
  key; `Overlap` says which overlaps do no harm, and what is lost in the others.
- The load of a directory comes to an end; `FileSystem.RereadOutcome` says when it does not. Keys of
  different paths are different.
- An in-block position lies in a 16-bit field, so blocks have at most 65536 bytes.
- An entry of the recency list is no larger than the capacity, which is below 2 GiB; the
  eviction loop would unlink the head otherwise.
- A cache request ends before the 32-bit position of the loop in `get_block_ids` wraps; the loop
  would start over at the beginning of the file otherwise.

Where the code does less than its comments or names promise, the model follows the code, gives a
case that shows it, and proves the exact condition under which the promise holds: commits and
rollbacks that compare no versions; writes dropped when their 32-bit end wraps; the new size of a
write inside one block; the 16-bit size field; reads that shrink at an absent block; aborted
transactions that leave empty blocks, and with them directories nobody made; the re-read loop that
may not end; a same-directory rename onto an existing name; entries lost between overlapping
operations; renames that copy fewer bytes than the recorded size; the cache's last block of an
unaligned request; cached blocks without a list entry, and stale ones; tables with files that have
no block; a space in the bytes of such a table; two opens of a file under way; jobs that complete
twice. A comment in the cache says that `emplace` replaces a cached block; it does not.

## Model

| member | source | states |
|---|---|---|
| `BlockWalk.PiecesPartition` | functions/datafunction/storage-conf-ssbd-backend.hpp:167-196 | The pieces of a byte range use consecutive blocks once each, are nonempty, stay inside their block, each ends where the next begins, and together they have the length of the range. |
| `BlockWalk.SendPrepares` | functions/datafunction/storage-conf-ssbd-backend.hpp:159-197 | The sending loop cuts the data exactly along those pieces, or sends nothing when the 32-bit end of the range wraps. |
| `BlockWalk.CutFollowsPieces` | functions/datafunction/storage-conf-ssbd-backend.hpp:167-196 | The requests of a write follow the pieces of the walk one for one, and their data joined together is the data of the write. |
| `BlockWalk.SendDecisions` | functions/datafunction/storage-conf-ssbd-backend.hpp:248-281 | Commit and rollback send one decision to the block of every piece that prepare walked, in the same order. |
| `BlockWalk.CountReplies` | functions/datafunction/storage-conf-ssbd-backend.hpp:774-788 | The counting pass of a read counts exactly the pieces of the range, and none when its 32-bit end wraps. |
| `BlockWalk.WalkVisitsRange` | functions/datafunction/storage-conf-ssbd-backend.hpp:159-168 | A walk with 32-bit positions visits its whole range if and only if the end fits in 32 bits; otherwise it visits nothing. |
| `BlockWalk.PositionFieldFits` | ssbd/leveldb-serializer.hpp:150-150 | The in-block position survives its 16-bit field for every range if and only if blocks have at most 65536 bytes. |
| `BlockWalk.NewFileSize` | functions/datafunction/storage-conf-ssbd-backend.hpp:652-664 | The new file size computed by a nonempty write is the end of the write if and only if that fits in 32 bits and the write is not past the first byte of a block and inside it; there it misses the offset. |
| `Cases.WrappedWriteIsDropped` | functions/datafunction/storage-conf-ssbd-backend.hpp:159-168 | Two bytes at the last 32-bit position visit no block. |
| `Cases.SizeMissesItsOffset` | functions/datafunction/storage-conf-ssbd-backend.hpp:652-664 | Ten bytes at position 100 record the size 10. |
| `StorageKey.DecimalRoundTrip` | ssbd/persistent-log.hpp:43-73 | A version written in decimal reads back as written. |
| `StorageKey.BlockKeyInjective` | ssbd/leveldb-serializer.hpp:164-170 | Two blocks have the same storage key only if uuid and block number agree. |
| `StorageKey.LogKeyInjective` | ssbd/persistent-log.hpp:43-122 | Two log entries have the same key only if uuid, block number and field agree. |
| `Ssbd.VersionReadsBack` | ssbd/persistent-log.hpp:43-73 | A put version is the version then read at that key. |
| `Ssbd.PutFieldFrames` | ssbd/persistent-log.hpp:63-92 | A put to one field of one block leaves the record of every other block as it was. |
| `Ssbd.Node.PutPendingPrepare` | ssbd/persistent-log.hpp:75-92 | Logs data and version as one record update and leaves every other block's record alone. |
| `Ssbd.Node.TwoPcPrepare` | ssbd/main.cpp:138-173 | On the flat databases a prepare acts as `BlockRecord.Prepare` on its own record: an absent block is created empty, a pending log refuses, otherwise the merged block is logged; no other record changes. |
| `Ssbd.Node.TwoPcPrepareQuick` | ssbd/main.cpp:208-228 | The quick prepare acts as `BlockRecord.PrepareQuick` on its own record and on no other. |
| `Ssbd.Node.TwoPcCommitExecute` | ssbd/main.cpp:235-261 | A commit installs the pending data and version of its own record, whatever they are, and touches no other. |
| `Ssbd.Node.TwoPcCommitRollback` | ssbd/main.cpp:263-277 | A rollback resets the pending version of its own record and touches no other. |
| `Ssbd.Node.DbRead` | ssbd/main.cpp:316-344 | A read returns exactly `size` bytes, the stored ones from the position on and zeros past the end of the block, and nothing for an absent block; a position past the end is the caller's to avoid. |
| `BlockRecord.AbsentBlockIsGranted` | ssbd/main.cpp:138-173 | A prepare of an absent block is granted whatever an old log says; a commit then stores the merged data, a rollback leaves an empty block of version 0. |
| `BlockRecord.CommitInstallsOwnWrite` | ssbd/main.cpp:235-277 | Commit and rollback compare no versions: after a prepare and any messages of other transactions, a commit installs the transaction's own version if and only if those messages were commits, or full prepares before any commit; then the content is its merged data. |
| `BlockRecord.CompleteOverlapDestroysWrite` | ssbd/main.cpp:146-173 | A second transaction that runs to its end on a prepared block always destroys the first one's write. |
| `TwoPhaseCommit.StepRefines` | functions/datafunction/storage-conf-ssbd-backend.hpp:198-243 | Every step of the protocol keeps the invariant and changes what readers see only by applying a whole transaction, at the step that counts its last agreeing vote. |
| `TwoPhaseCommit.CommitProtocolIsAtomic` | functions/datafunction/storage-conf-ssbd-backend.hpp:134-313 | After any run, with transactions starting at any time, in any delivery order in which a prepare finds its block free, and with lost prepares, every block at rest holds what the committed transactions leave when each runs at once in the order of decisions, and has no pending log. |
| `CommitDecision.DecidesExactlyWhen` | functions/datafunction/storage-conf-ssbd-backend.hpp:198-243 | In every run a transaction has decided if and only if a vote of each of its blocks was counted. |
| `CommitDecision.CommitsExactlyWhen` | functions/datafunction/storage-conf-ssbd-backend.hpp:203-243 | In every run a transaction that has decided has decided to commit if and only if every prepare of it was answered by its node; one that failed, before or after it arrived, aborts it. |
| `CommitDecision.HistoryExactlyWhen` | functions/datafunction/storage-conf-ssbd-backend.hpp:203-243 | The committed transactions of a run are exactly those whose votes are all counted and whose prepares were all answered. |
| `CommitDecision.HeldExactlyWhen` | functions/datafunction/storage-conf-ssbd-backend.hpp:226-281 | In every run a block is held if and only if a prepare of a transaction was delivered there, or failed, and its decision was not. |
| `CommitDecision.ExistsExactlyWhen` | ssbd/main.cpp:138-144 | In every run a block exists if and only if it did before or a prepare reached its node. |
| `CommitDecision.OneTransactionStores` | functions/datafunction/storage-conf-ssbd-backend.hpp:226-281 | A run of one transaction that delivers all its decisions leaves its data and version in every block of it if all prepares were answered, and otherwise every block with its old content and version. |
| `CommitDecision.EveryTransactionCanCommit` | ssbd/main.cpp:146-173 | On an idle store every transaction over distinct blocks has a run that commits and stores it. |
| `CommitOrder.NetRunIsValid` | functions/datafunction/storage-conf-ssbd-backend.hpp:226-281 | With a queue of messages per block and sending as a step of its own after the decision: when a transaction starts once those before it on its blocks have sent their decisions, every prepare that comes out of its queue finds its block free, so the run is a run of the protocol. |
| `CommitOrder.UnsentBlocksAreHeld` | functions/datafunction/storage-conf-ssbd-backend.hpp:226-243 | Between the decision, when the client is answered, and the sending of the decisions all blocks of the transaction are held and no decision is in their queues: a prepare sent in that gap reaches a held block. |
| `CommitOrder.EarlyStartsAreAtomic` | functions/datafunction/storage-conf-ssbd-backend.hpp:226-281 | Such runs are atomic in the order of decisions, although transactions on the same block overlap. |
| `TwoPhaseCommit.ContentChangesOnlyWhenAllAgree` | functions/datafunction/storage-conf-ssbd-backend.hpp:387-442 | A block's content changes only by a commit of a transaction all of whose blocks voted to agree, and then by exactly that transaction's data. |
| `TwoPhaseCommit.DecisionsAreFinal` | functions/datafunction/storage-conf-ssbd-backend.hpp:226-243 | A decision is taken once and never changes; a transaction is in the history of commits exactly when it decided to commit. |
| `TwoPhaseCommit.Counters.OnReply` | functions/datafunction/storage-conf-ssbd-backend.hpp:198-243 | The reply callback decides exactly when the counter reaches zero, and the decision is the conjunction of all votes. |
| `TwoPhaseCommit.DisjointTxnsCommute` | ssbd/persistent-log.hpp:75-92 | Transactions over pairwise disjoint blocks leave the same store in every order. |
| `TwoPhaseCommit.InterleavingIsSerialisable` | functions/datafunction/storage-conf-ssbd-backend.hpp:239-281 | Any interleaving of the messages of pairwise disjoint transactions ends in the store of any serial order of the committed ones. |
| `TwoPhaseCommit.QuickPrepareIsFull` | ssbd/main.cpp:208-228 | In every reachable state quick and full prepare give the same vote and the same record. |
| `TwoPhaseCommit.QuickPreparesNeverMatter` | functions/datafunction/storage-conf-ssbd-backend.hpp:181-183 | Replacing any prepares of a run by the other form leaves it a run with the same end. |
| `FlatFile.StripedTxnIsFlat` | functions/datafunction/storage-conf-ssbd-backend.hpp:315-386 | A transaction over several files changes every byte as writing the data of its inputs into flat arrays would. |
| `FlatFile.TxnBlocksDistinct` | functions/datafunction/storage-conf-ssbd-backend.hpp:345-386 | The writes of one transaction over distinct files never name a block twice. |
| `FileSystem.SendInput` | functions/datafunction/storage-conf-ssbd-backend.hpp:345-386 | What the prepare loop sends for an input is exactly the writes of that input in the transaction, none when its 32-bit end wraps. |
| `FlatFile.StripedStoreIsFlat` | functions/datafunction/storage-conf-ssbd-backend.hpp:134-313 | After any run every byte of every block at rest is the byte of a flat array after the committed writes in decision order, zero in gaps. |
| `StripedRead.Accumulator.OnReply` | functions/datafunction/storage-conf-ssbd-backend.hpp:763-826 | A reply fills its slot; the result is handed over exactly when all slots are filled, glued in slot order. |
| `StripedRead.ReplyOrderIrrelevant` | functions/datafunction/storage-conf-ssbd-backend.hpp:763-826 | A read completes at the last reply and not before, with the same bytes in every reply order. |
| `StripedRead.StripedReadIsFlat` | functions/datafunction/storage-conf-ssbd-backend.hpp:774-826 | A striped read whose first offset lies within its block returns the flat slice if and only if every block of the range is present. |
| `StripedRead.ReadAnyOrder` | ssbd/rawblocks.hpp:28-33 | With all blocks present the flat bytes come back whatever the order of the replies. |
| `Cases.AbsentBlockShiftsCopy` | functions/datafunction/storage-conf-ssbd-backend.hpp:1457-1501 | With block 0 absent a read of the recorded size gives the byte of block 1 as the first one, which a rename then copies. |
| `StripedRead.ReadAfterRunIsFlat` | functions/datafunction/storage-conf-ssbd-backend.hpp:738-826 | A read after any run of the protocol, its replies glued in any order of arrival, returns at every address whose block is at rest the byte the committed requests left. |
| `ReadBack.CommittedRangeIsPresent` | functions/datafunction/storage-conf-ssbd-backend.hpp:738-826 | Every block of the range of a committed write is stored, and the range starts within its first block, so a read of it is full and not out of bounds. |
| `ReadBack.CommittedWriteReadsBack` | functions/datafunction/storage-conf-ssbd-backend.hpp:738-826 | After any run that leaves the file at rest, a read of the range of a committed write, replies in any order, has the full length and returns at every address no later committed write touches the byte written. |
| `StoredFiles.RunStoresPuts` | ssbd/main.cpp:138-144 | Any run of any number of transactions leaves each file with the bytes the committed ones put, in decision order, and beyond that at most empty blocks that some request asked for. |
| `StoredFiles.OneTransaction` | ssbd/main.cpp:263-277 | A run of one transaction leaves exactly its writes when it committed, and otherwise the old bytes with some of its blocks created empty. |
| `Directory.RenamedEntry` | functions/libslsfs/slsfs/json-replacement.hpp:14-56 | Refilling the name field gives an entry of exactly that name with the same metadata. |
| `Directory.FindEntry` | functions/datafunction/storage-conf-ssbd-backend.hpp:984-1000 | The scan finds the first entry of a name, or the count; stale entries past the count are never seen. |
| `Directory.AppendEntry` | functions/datafunction/storage-conf-ssbd-backend.hpp:1114-1160 | Appending to the bytes appends to the entries and nothing else. |
| `Directory.DeleteEntry` | functions/datafunction/storage-conf-ssbd-backend.hpp:1000-1027 | Moving the last entry into the freed place and lowering the count removes exactly that entry. |
| `Directory.RewriteEntry` | functions/datafunction/storage-conf-ssbd-backend.hpp:666-693 | Overwriting an entry in place replaces that entry and no other. |
| `Directory.AddedEntry` | functions/datafunction/storage-conf-ssbd-backend.hpp:1114-1160 | An entry under a free name extends the name map by that name and keeps names distinct. |
| `Directory.RemovedEntry` | functions/datafunction/storage-conf-ssbd-backend.hpp:1000-1027 | A deletion takes one name out of the map and keeps names distinct. |
| `Directory.RenamedInPlace` | functions/datafunction/storage-conf-ssbd-backend.hpp:1555-1621 | A same-directory rename moves the metadata to the new name; names stay distinct if and only if the new name was free, which the code does not check. |
| `Directory.RenameConserves` | functions/datafunction/storage-conf-ssbd-backend.hpp:1382-1451 | A cross-directory rename moves exactly one entry: it leaves the source, its metadata enters the destination under the new name, all other names keep theirs. |
| `Directory.RecordedSize` | functions/datafunction/storage-conf-ssbd-backend.hpp:666-693 | The recorded size is the larger of old and new size if and only if the new size fits the 16-bit field. |
| `Cases.SizeFieldWraps` | functions/datafunction/storage-conf-ssbd-backend.hpp:666-693 | A file of 65536 bytes is recorded as empty. |
| `Cases.TakenNameIsThereTwice` | functions/datafunction/storage-conf-ssbd-backend.hpp:1555-1621 | A rename onto the name of another entry leaves that name twice. |
| `DirectoryRun.EditRepresents` | functions/datafunction/storage-conf-ssbd-backend.hpp:940-1160 | An insertion, removal, size update or rename to a free name acts on the entries as the same update acts on a map from names to metadata. |
| `Leftovers.BlankHeaderLoadsExactlyWhen` | functions/datafunction/storage-conf-ssbd-backend.hpp:964-980 | A key that holds only empty blocks of a header is loaded as an empty directory if and only if all of them are there; with 64-byte blocks or larger, if and only if block 0 is. |
| `Leftovers.PhantomDirectory` | ssbd/main.cpp:138-144 | With 4096-byte blocks one block created empty by an abort makes an empty directory of a key that had none. |
| `Leftovers.CopyIsExactlyWhen` | functions/datafunction/storage-conf-ssbd-backend.hpp:1457-1501 | A read of `n` bytes from the start of a file is complete if and only if all their blocks are stored, and then it is the file's first `n` bytes. |
| `Leftovers.SizeIsStoredExactlyWhen` | functions/datafunction/storage-conf-ssbd-backend.hpp:652-736 | The blocks of the first `n` bytes of a new file are stored by a write if and only if each of them starts before the end of the data, which goes to byte 0 whatever the position of the request. |
| `FileSystem.AtMostOneReread` | functions/datafunction/storage-conf-ssbd-backend.hpp:629-645 | A well-formed directory is loaded by the first read, if and only if it has at most 63 entries, or by one more. |
| `FileSystem.RereadOutcome` | functions/datafunction/storage-conf-ssbd-backend.hpp:964-980 | The second read of any stored file with a header is complete if and only if all counted entries are stored and end below 4 GiB; at a multiple of 4 GiB the directory counts as missing; otherwise the same read repeats without end. |
| `Cases.RereadNeverEnds` | functions/datafunction/storage-conf-ssbd-backend.hpp:964-980 | A header that counts 64 entries in a file of one 4096-byte block makes the program ask for 4160 bytes again and again. |
| `FileSystem.WriteDirectory` | functions/datafunction/storage-conf-ssbd-backend.hpp:1003-1027 | Writing new directory content over longer old content leaves a directory with exactly the new entries. |
| `Metadata.RenameJoinsInAnyOrder` | functions/datafunction/storage-conf-ssbd-backend.hpp:1476-1501 | The two sub-reads of a rename give the same outcome in either order, and nothing before both are back. |
| `Metadata.SendsDone` | functions/datafunction/storage-conf-ssbd-backend.hpp:606-736 | The transaction an operation sends after its reads, put as a whole, does to directories, keys and all other files what the operation promises. |
| `Metadata.Service.Transact` | ssbd/main.cpp:263-277 | A transaction puts all its inputs, or on an abort keeps all bytes and creates, empty, exactly those of its blocks whose prepares arrived. |
| `MetadataCommit.TransactionPerforms` | functions/datafunction/storage-conf-ssbd-backend.hpp:315-442 | Every run of the commit protocol over the transaction of an operation, on nodes that hold the files it read, performs that operation on what the nodes hold: as a whole if it commits, changing no byte if not. |
| `Metadata.Service.AddFile` | functions/datafunction/storage-conf-ssbd-backend.hpp:1054-1187 | Appends an entry under a free name and changes no other file; missing directory and existing name change nothing; an aborted transaction changes no byte and may leave empty blocks. |
| `Metadata.Service.MakeDirectory` | functions/datafunction/storage-conf-ssbd-backend.hpp:1219-1359 | Adds the entry and leaves an empty directory under the child key; an abort may leave empty blocks of a header there. |
| `Metadata.Service.DeleteFile` | functions/datafunction/storage-conf-ssbd-backend.hpp:940-1052 | Removes the entry; a missing directory or name changes nothing, an abort changes no byte. |
| `Metadata.Service.WriteFile` | functions/datafunction/storage-conf-ssbd-backend.hpp:606-736 | Performs the write: the entry, if there is one, gets the size and time stated by `MetadataEffect.WriteIsRecorded`, the data goes to byte 0 of the file, which is the position the code uses, and no other file changes. |
| `Metadata.Service.InitDirectory` | functions/datafunction/storage-conf-ssbd-backend.hpp:1189-1217 | Leaves an empty directory under the key, whatever was stored there, and touches no other file; an abort changes no byte. |
| `Metadata.Service.RenameHere` | functions/datafunction/storage-conf-ssbd-backend.hpp:1555-1621 | Renames the entry, also onto a name that is taken, and writes the copy of the old key to the new one; when the old key has all blocks of its size the new key then has its first `file_size` bytes, byte for byte. |
| `Metadata.Service.RenameAcross` | functions/datafunction/storage-conf-ssbd-backend.hpp:1504-1711 | Moves the entry between two directories with the same copy, in either order of the two sub-reads; the error is the first one found and then nothing is written. |
| `Metadata.Service.Perform` | functions/datafunction/storage-conf-ssbd-backend.hpp:2061-2125 | The dispatch of a metadata request performs the operation it names, on the stored files of all keys at once. |
| `MetadataEffect.WriteIsRecorded` | functions/datafunction/storage-conf-ssbd-backend.hpp:652-693 | After a committed write the entry found under the name has the larger of its old size and the end of the write if and only if the write ends inside the old size, or is nonempty, ends below 65536 and is not inside one block past its first byte; the last eight metadata bytes are the new time; all other fields, and what every other name finds, are as before. |
| `MetadataEffect.OwnDirectoryAfter` | functions/datafunction/storage-conf-ssbd-backend.hpp:1000-1160 | Name by name, what a committed add, mkdir, delete or rename leaves in its directory: the new name finds the given or the moved metadata, a removed name nothing, all others what they found; names stay distinct if and only if a rename did not take one that was there. |
| `MetadataEffect.DestinationAfter` | functions/datafunction/storage-conf-ssbd-backend.hpp:1382-1451 | After a committed rename into another directory the new name finds there what the old name found in the source, and all other names what they found before. |
| `MetadataEffect.MadeDirectoryIsEmpty` | functions/datafunction/storage-conf-ssbd-backend.hpp:1189-1217 | A directory that was made or initialised loads and has no entry. |
| `MetadataEffect.MissingDirectory` | functions/datafunction/storage-conf-ssbd-backend.hpp:964-980 | For a key with nothing stored every operation other than init replies that there is no such directory and changes nothing; a rename to a destination with nothing stored fails, for its name first if the source does not have it, and changes nothing; init never fails but by an abort. |
| `MetadataRun.StepTracks` | functions/datafunction/storage-conf-ssbd-backend.hpp:606-736 | An operation on stored files is the matching update of the known directories as maps; an abort or an error is none. |
| `MetadataRun.DirectoriesAreMaps` | functions/datafunction/storage-conf-ssbd-backend.hpp:940-1711 | Every run of add, mkdir, delete, write, both renames and init, with any aborts between them, acts on the stored directories as the committed operations act on maps from names to metadata. |
| `MetadataRun.RepliesFollowMaps` | functions/datafunction/storage-conf-ssbd-backend.hpp:940-1711 | In every such run the reply to a request on known directories is the one those maps give. |
| `Overlap.OverlapIsSerial` | functions/datafunction/storage-conf-ssbd-backend.hpp:940-1711 | Operations that overlap between their reads and their decisions are a run of whole operations in decision order, when no decision of another one in between changes what an operation has read; decisions on other keys do not, and aborts do not on whole directories. |
| `Overlap.OverlappingDirectoriesAreMaps` | functions/datafunction/storage-conf-ssbd-backend.hpp:940-1711 | Such runs leave the stored directories as the answered operations leave maps. |
| `Overlap.CommitRestoresRead` | functions/datafunction/storage-conf-ssbd-backend.hpp:1003-1027 | A commit leaves the directory as its operation read it, edited, whatever was stored since. |
| `Overlap.LostEntry` | functions/datafunction/storage-conf-ssbd-backend.hpp:1114-1160 | Two files added from one read of their directory, both committed: the first one is gone. |
| `Overlap.CommitIsCurrentExactlyWhen` | functions/datafunction/storage-conf-ssbd-backend.hpp:1003-1160 | A committed add, mkdir or delete is what it would be on the directory at the decision if and only if all other names are there as they were read, and its own name is there or not as it was. |
| `MetadataRun.FailedMkdirLoadsExactlyWhen` | functions/datafunction/storage-conf-ssbd-backend.hpp:1219-1359 | After an aborted mkdir under a key with nothing stored, the key loads as an empty directory if and only if the abort left every block of the header, for blocks of 64 bytes or more if and only if it left block 0. |
| `LruCache.EvictIsLongestPrefix` | functions/datafunction/caching.hpp:172-180 | Dropping from the tail keeps a prefix that fits, and no longer prefix fits. |
| `LruCache.SetIsLeastRecentFirst` | functions/datafunction/caching.hpp:158-184 | After `set` the new entry is followed by the longest prefix of the old order without it that still fits the capacity. |
| `LruCache.EvictionDropsExactly` | functions/datafunction/caching.hpp:112-132 | Eviction removes exactly the blocks of the dropped entries and leaves the bytes of the others. |
| `LruCache.EvictionKeepsFile` | functions/datafunction/caching.hpp:126-130 | After an eviction a file is in the table if and only if it was there and no dropped entry belongs to it, or one of its blocks is left; if no dropped entry belongs to it, all its blocks are. |
| `LruCache.EvictionLeavesNoEmptyFile` | functions/datafunction/caching.hpp:126-130 | Eviction leaves no file without blocks, if there was none. |
| `LruCache.Cache.constructor` | functions/datafunction/caching.hpp:141-147 | The empty cache satisfies the invariant. |
| `LruCache.Cache.AddNode` | functions/datafunction/caching.hpp:87-97 | Linking a node keeps one proper doubly linked list, with the node behind the head. |
| `LruCache.Cache.DeleteNode` | functions/datafunction/caching.hpp:99-110 | Unlinking a node keeps one proper doubly linked list without it. |
| `LruCache.Cache.MakeRoom` | functions/datafunction/caching.hpp:172-180 | The eviction loop terminates and leaves the longest fitting prefix, with the evicted blocks gone. |
| `LruCache.Cache.Set` | functions/datafunction/caching.hpp:158-184 | Keeps the heap invariant (one list between the sentinels, its nodes exactly the indexed ones with distinct keys, the byte counter their sum and within the capacity), turns the order into `SetOrder` of the old one, drops exactly the blocks of the evicted entries, and leaves no file without blocks if there was none. |
| `BlockCache.GetBlockIds` | functions/datafunction/caching.hpp:225-241 | Names one block per started block length, from the block of the first byte on, and none when the 32-bit end of the range wraps. |
| `BlockCache.BlockIdsAgainstWalk` | functions/datafunction/caching.hpp:225-241 | These are the first blocks of the storage walk, and all of them if and only if first offset and last length fit in one block; otherwise the last one is missed. |
| `BlockCache.SetKeepsCovered` | functions/datafunction/caching.hpp:112-132 | If every cached block has a list entry before `set`, it has one after. |
| `BlockCache.EmplaceKeepsCached` | functions/datafunction/caching.hpp:514-519 | Emplacing leaves every cached block as it is, with its old bytes, and adds only the one block. |
| `BlockCache.SetKeepsOwnBlock` | functions/datafunction/caching.hpp:158-184 | `set` never drops the block it is called for. |
| `BlockCache.TurnHoldsExactlyWhen` | functions/datafunction/caching.hpp:500-519 | One turn of a write to a cached file leaves its bytes in the cache if and only if `set` did not evict the file and the block was not cached, or had those bytes; a cached block keeps its old ones. |
| `BlockCache.CachedBlockGoesStale` | functions/datafunction/caching.hpp:514-519 | A block cached with one byte still has it after a write of another. |
| `CacheWrite.PartsAre` | functions/datafunction/caching.hpp:500-512 | The parts of a write are nonempty, at most a block long, as many as there are started block lengths, and one after another they are its data. |
| `CacheWrite.SetsBegun` | functions/datafunction/caching.hpp:158-184 | After the entries of a write are set, the list begins with them, the latest first, as far as they fit. |
| `CacheWrite.SetsSpare` | functions/datafunction/caching.hpp:522-545 | Listing the blocks of a write leaves a block of any other file in the cache, with its bytes, if and only if its entry is still listed. |
| `CacheWrite.TurnsSpare` | functions/datafunction/caching.hpp:498-521 | So do the turns of a write to a cached file. |
| `CacheWrite.WriteHoldsExactlyWhen` | functions/datafunction/caching.hpp:498-521 | A write of any number of blocks that fits in the cache leaves a block's bytes there if and only if listing its first block did not evict the file and the block's turn found no other bytes; later turns never drop it. |
| `CacheWrite.WriteNew` | functions/datafunction/caching.hpp:522-545 | Sets the entries of the blocks one after another, then enters the file with exactly the parts of the data; every cached block keeps a list entry if and only if the write fits in the cache. |
| `CacheWrite.WriteExisting` | functions/datafunction/caching.hpp:498-521 | The loop makes exactly one turn per block; every block cached afterwards was cached before with the same bytes or holds its part of the data, and has a list entry. |
| `CacheWrite.WriteToCache` | functions/datafunction/caching.hpp:487-546 | Every cached block still has a list entry if and only if the file was cached before or the whole write fits; a write that fits leaves a block's bytes in the cache under exactly the stated condition; blocks of other files stay exactly while they are listed; and a file without blocks comes in if and only if the write is empty and the file was not cached. |
| `CacheWrite.LargeWriteIsNotListed` | functions/datafunction/caching.hpp:522-545 | A write of one byte more than the cache holds leaves a cached block without a list entry. |
| `CacheFill.Fill` | functions/datafunction/caching.hpp:487-546 | A cache filled by any nonempty writes that fit holds what they leave one after another; every cached block is listed, every cached file has a block, and all numbers have 32 bits. |
| `CacheTable.TableRoundTrip` | functions/datafunction/caching.hpp:326-434 | Parsing the printed table gives back its records in order if and only if every file in it has a block. |
| `CacheTable.HollowFileIsLost` | functions/datafunction/caching.hpp:261-288 | A file without blocks, which an empty write leaves behind, is not read back. |
| `CacheHandOver.TableReadsBack` | functions/datafunction/caching.hpp:326-434 | The table of a cache, its files listed in any order, reads back if and only if every cached file has a block. |
| `CacheHandOver.RebuildRestores` | functions/datafunction/caching.hpp:326-434 | Building the table of a cache into an empty one of the same capacity restores the recency order, registers exactly the cached files and those of the list, all without blocks, and evicts nothing. |
| `CacheHandOver.AsksForCached` | functions/datafunction/caching.hpp:385-430 | The new worker asks the storage for a block if and only if it was cached, with its length, and for none twice. |
| `CacheTable.GetTables` | functions/datafunction/caching.hpp:254-323 | The printing loops, the second one along the `prev` links of the heap list, produce the records of the cached files and of the recency list and the two counters. |
| `CacheTable.BuildCache` | functions/datafunction/caching.hpp:326-434 | The parsing loops apply every record in order and request every block of every file from the storage. |
| `CacheHandOver.HandOver` | proxy/launcher.hpp:244-267 | Printing, dropping the eight counter bytes and building into an empty cache gives a cache with the same order and files and a request for exactly the cached blocks. |
| `CacheFill.FillAndHandOver` | proxy/launcher.hpp:244-267 | Every cache filled that way can be handed over: the new worker has its order and files and asks for exactly its blocks. |
| `Cases.FileInBytes` | functions/datafunction/caching.hpp:261-288 | The bytes of a file record: the key, a colon, and for each block its number and size, with commas between and a space behind. |
| `Cases.EntryInBytes` | functions/datafunction/caching.hpp:290-315 | The bytes of a list entry: the key, a dot, number and size, least significant byte first, and a space. |
| `TableScan.ScanFindsRecords` | proxy/launcher.hpp:154-168 | The proxy's scan takes keys at the starts of the records and nowhere else if and only if no byte of an id or size is a space. |
| `TableScan.StopsInside` | proxy/launcher.hpp:154-168 | A space in an id or size of a record puts the next key strictly inside that record, or the scan runs past the end. |
| `TableScan.ScanTakesStarts` | proxy/launcher.hpp:154-168 | The keys of the scan are the 32 bytes at those starts. |
| `TableScan.ScanFindsKeys` | proxy/launcher.hpp:154-168 | Without such a space the scan finds the key of every record. |
| `TableScan.SpaceInAnIdMisleads` | proxy/launcher.hpp:154-168 | The table of a file with block 32 makes that scan run past the end. |
| `TableScan.GetFileIds` | proxy/launcher.hpp:154-168 | The scanning loops compute `Scan`: a key, the bytes up to the next space, and so on. |
| `Proxy.Launcher.OnRequest` | proxy/launcher.hpp:468-594 | The request handler gives the verdict and the tables of `Judge` and `Admit` in every case and keeps stored counts positive; `Proxy.VerdictsFollowTheTally` says what the verdicts are. |
| `Proxy.Launcher.OnOpened` | proxy/launcher.hpp:274-309 | The open reply handler changes the tables as `Opened`; a success erases the pending entry as a whole. |
| `Proxy.OpensAreConserved` | proxy/launcher.hpp:490-563 | In every run open counts are grants minus accepted closes and stored only when positive, pending opens never exceed the opens under way, and a directory is locked only while a rename out of it is under way. |
| `Proxy.VerdictsFollowTheTally` | proxy/launcher.hpp:490-591 | In every run, for a request keyed by an unlocked directory: an open is answered by the proxy, a close accepted and a data request forwarded if and only if the file was granted more often than closed; a delete or rename is forwarded if and only if the file is not in use or the guard is lost; other metadata requests are always forwarded; and every request keyed by a locked directory is refused. |
| `Proxy.TrackingBreaksExactlyWhen` | proxy/launcher.hpp:289-308 | A step keeps the pending count equal to the opens under way if and only if it is not a success while another open of the file is under way. |
| `Proxy.GuardLostExactlyWhen` | proxy/launcher.hpp:289-308 | A step keeps the tables aware of a file being opened if and only if it is neither the close of the last known open nor the failure of the last pending one, while a forgotten open is under way. |
| `Proxy.RefusesExactlyWhenGuarded` | proxy/launcher.hpp:510-540 | Deletes and renames of a file in use, keyed by unlocked directories, are all refused if and only if the tables are aware of it. |
| `Proxy.OpenFilesAreGuarded` | proxy/launcher.hpp:510-540 | In every run all deletes and renames of a file that is open or being opened, keyed by unlocked directories, are refused in every state, if and only if the run never takes a step that loses the guard. |
| `Proxy.OneOpenKeepsGuard` | proxy/launcher.hpp:490-508 | With at most one open of the file under way at a time no step loses the guard. |
| `Proxy.TwoOpensLoseTheGuard` | proxy/launcher.hpp:289-308 | With two opens under way a delete can be forwarded while the file is being opened. |
| `Proxy.UnlockedTooEarlyExactlyWhen` | proxy/launcher.hpp:311-319 | A step keeps the lock of a directory exact if and only if it is not a rename reply while another rename out of it is under way. |
| `Proxy.LocksAreExact` | proxy/launcher.hpp:311-319 | In every run a directory is locked exactly while a rename out of it is under way, in every state, if and only if no rename reply comes while another rename out of it is under way. |
| `Proxy.RenamingLocksTheDirectory` | proxy/launcher.hpp:470-480 | With at most one rename out of a directory at a time, every request keyed by it before the reply is refused and changes nothing. |
| `Proxy.KeyedRenamesComeOneByOne` | proxy/launcher.hpp:524-540 | If renames are keyed by their source directory, the lock itself admits only one at a time. |
| `Jobs.Launcher.ProcessJob` | proxy/launcher.hpp:321-348 | A posted call puts the job back, posts its completion or starts it on the named worker; `Jobs.StepHolds` and `Jobs.StepCompletes` say which. |
| `Jobs.Launcher.CloseWorker` | proxy/worker.hpp:80-92 | The closing loop posts every started job of the worker again, once, and invalidates the worker. |
| `Jobs.NoJobIsLost` | proxy/launcher.hpp:598-610 | In every run a scheduled job is posted, held by a valid worker, or completed. |
| `Jobs.AnsweredIsNeverHeld` | proxy/worker.hpp:268-296 | In every run whose calls for a job all find it answered by the proxy, no worker ever holds it, if none did at the start. |
| `Jobs.StepHolds` | proxy/worker.hpp:248-296 | Only a call that finds the job unanswered puts it on a worker, the named one if it is valid; only that worker's response takes it off. |
| `Jobs.ValidExactlyWhen` | proxy/worker.hpp:71-92 | In every run the valid workers are exactly those that have joined and not closed. |
| `Jobs.StepCompletes` | proxy/worker.hpp:248-266 | A job is completed, once, exactly by its posted completion or by the response of a worker that holds it. |
| `Jobs.AnsweredCompletes` | proxy/worker.hpp:268-296 | An answered job with a valid worker to hand completes by its posted completion, and no worker's list changes. |
| `Jobs.ResponseCompletes` | proxy/worker.hpp:248-266 | Any other job completes by the response of the worker it goes to, whose list is then as before. |
| `Jobs.CopiedExactlyWhen` | proxy/worker.hpp:80-92 | A job that is in one place stays in one place if and only if it is not scheduled again and no worker that holds it closes. |
| `Jobs.OnePlaceExactlyWhen` | proxy/worker.hpp:80-92 | In every run a job is in one place in every state if and only if it is not scheduled again and no worker that holds it closes. |
| `Jobs.CompletesAtMostOnce` | proxy/worker.hpp:248-266 | Without such a close a job completes at most once. |
| `Jobs.LateResponseCompletesTwice` | proxy/worker.hpp:80-92 | From every state, a response handled after its worker closed and the next worker's response complete the job twice. |
| `Ring.ListGivesTheOwner` | proxy/launcher.hpp:617-624 | The upper bound with wraparound in a sorted list is the least id above the key, else the least of all. |
| `Ring.ClientAndProxyAgree` | proxy/clients/clientlib.hpp:125-143 | Client and proxy with the same ids name the same owner for every key. |
| `Ring.AddingMovesKeysToTheNewOne` | proxy/clients/clientlib.hpp:130-139 | Adding a proxy moves keys only to it. |
| `Ring.RemovingMovesItsKeysOnly` | proxy/clients/clientlib.hpp:130-139 | Removing a proxy moves only its keys. |
| `Ring.Client.Reconfigure` | proxy/clients/clientlib.hpp:27-77 | After a new list the sockets are exactly those of its proxies, all open: those that were open are the same sockets, the others are new. A failed connection changes nothing, and neither does a list of the same proxies, closed sockets included; success is characterised exactly. |
| `Ring.Client.SelectProxy` | proxy/clients/clientlib.hpp:125-143 | Selects the socket of the owner of the key, which is open when all are. |
| `Ring.Reconfigure` | proxy/launcher.hpp:612-634 | Sends one message to every other proxy that owns a bound key, and no second one. |
| `Ring.WatchRingIsOneCycle` | proxy/zookeeper.hpp:228-240 | Following the watched proxy visits every proxy exactly once before the n-th step, which is back at the start. |
| `Ring.WatchedByExactlyOne` | proxy/zookeeper.hpp:228-240 | With two proxies or more each is watched by exactly one, and by another one. |

## Left out

- Sockets, strands, timers, TLS and function triggers: delivery is an atomic step.
- Request deadlines of a transaction: wall-clock behaviour with a second reply path.
- Replication: its request carries no data, so there is no replica content to state.
- The choice of a replica and the request recorder: which node stores a block, and which form of prepare is sent, does not matter to what is proved.
- Lock and unlock packets of clients and direct connections to workers: outside the guarded path.
- Liveness flags and restarts of proxies: clocks and shell commands.
- Launch, keep-alive and load-balance policies: any worker choice is allowed by the model.
- `ls`, `stat`, `open`, create-and-write in one request and the read of a whole file: they repeat the directory load and scan, or the write, modelled here.
- The repair of an unreadable version entry: version entries are decimals in the model, as only the node writes them.
- The bytes a rebuilt cache fetches: the model states which blocks are requested, not when they arrive.
- The small table handlers of the proxy (a worker joins, a job is scheduled, a response or a rename reply comes in): one assignment each, taken as steps of the runs.
- The hit counter and the eviction counter: printed behind the table and dropped before it is used.
- The FIFO variant of the cache and the read from the cache: they call `set` or skip it, under a lock of the file that the eviction in `set` needs too.
- Padding bytes of a new directory entry: zero in the model.
- LevelDB, TBB containers, hashing, base64 and the sorted order of library lookups are taken as their interfaces describe them.
- Ssbd.Node.DbRead: requires a position within the stored block, because the node copies from past its end otherwise.
- StripedRead.StripedReadIsFlat: requires the first offset within its stored block, because the node copies from past the end of the block otherwise.
- Metadata.Service.WriteFile: states the data at byte 0, where the code writes it, and not at the requested position.
- BlockCache.GetBlockIds: requires a range whose 32-bit position does not wrap before its end, because the loop does not stop there otherwise.
- CacheWrite.WriteHoldsExactlyWhen: is about writes that fit in the cache as a whole; a larger write evicts its own first blocks.
- TableScan.ScanFindsKeys: goes one way only, because bytes of a key may make a misled scan find the same keys by accident; where the scan looks is exact in `TableScan.ScanFindsRecords`.
- MetadataRun.DirectoriesAreMaps: a directory in which a rename took a taken name, and a key that takes data, are no longer followed as maps, because names are not distinct there, or it is no directory.
- CommitOrder.NetRunIsValid: a transaction starts when the decisions before it are sent, and not already when they are taken and the client is answered, because in between a prepare reaches a held block.
- Overlap.CommitIsCurrentExactlyWhen: is about adds, mkdirs and deletes; for writes and renames `Overlap.OverlapIsSerial` gives the harmless overlaps and `Overlap.CommitRestoresRead` what they leave otherwise.
