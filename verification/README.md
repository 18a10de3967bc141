# joedb: models and proofs

joedb keeps a database as an append-only journal. This project models, in Dafny, the parts of it
whose correctness spans many operations, and proves what they promise over all inputs, runs and
reachable states:

- **Checkpoints and crashes** (`Disk`, `Checkpoint`, `CheckpointProtocol`, `SoftRollback`,
  `RollbackExactly`, `OpenKeeps`, `CheckpointReaders`): four header slots hold the last hard checkpoint and two
  soft ones. Many processes take turns and others only read; the machine may crash between any two
  file operations and lose any part of what was not synced.
- **The journal codec** (`Bits`, `CompactInt`, `FileBuffer`, `JournalFormat`, `JournalCodec`,
  `JournalWriter`, `JournalReplay`, `JournalReader`, `JournalBytes`): a writer that shortens operations by
  remembering the last one, a reader that rebuilds this memory, variable-length integers, and the
  buffer between them and a file with short reads.
- **The server** (`Server`, `ServerMeaning`, `PullMeaning`, `ServerObject`, `RobustPush`,
  `PushAnswers`, `LostReply`): sessions interleaved where their coroutines wait, pushes in chunks, a FIFO lock with timeouts, clients that retry.
- **Replication** (`Files`, `Replication`): clients with files of their own that check contents,
  pull, write and push.
- **The record allocator** (`Rings`, `FreedomKeeper`): two doubly-linked rings in arrays, and a
  dense form that switches to them on demand.
- **Encoded files** (`EncodedFile`): a log of encoded blobs that behaves like a flat file.
- **Packing** (`Tables`, `Effects`, `TableObject`, `Pack`, `PackExact`, `PackForm`, `PackObject`):
  what events do to a database, and a shorter journal for the same data.
- **Hashes and strings** (`Sha256`, `Sha256Meaning`, `Hashing`, `Utf8`, `StringEscape`, `Escapes`,
  `Json`).

Objects that the source changes in place are classes whose methods are proved to do what a
function says; protocols are state machines over such functions, with theorems about runs.

Decisions. A crash is one of the whole machine: bytes not synced may be lost or arbitrary, a slot
may hold any value written to it since its last sync, and `DataSync` does not make a new file size
durable. Processes read and write slots under the head lock and append under the tail lock.
`hard_checkpoint_at` is called with a position at or above the checkpoint. A file is new when its
header is durable. Short reads, timeouts, disconnections and lost replies are chosen arbitrarily.
Server steps are the stretches of code between two waits. Content checks at a handshake are full
ones. Sizes and ids are unbounded integers except where a width matters (16-bit table and field
ids, 8-byte lengths, 32-bit words, negation of the least 64-bit integer).

Where the promise does not hold of the code, there is a concrete input, and the exact condition
under which it does hold: an older soft checkpoint can come back after a second crash
(`SoftRollback`, `RollbackExactly`); a read-only process can end up ahead of a crashed file
(`ReaderStrays`, `StrayedExactly`); a non-empty vector update of the null record can be written but
not replayed (`JournalRoundTrip`); a log spliced after another one is misread when it relies on a
context it has not set (`SpliceNeedsNonzeroIds`, `SplicesExactly`); negative values and values from
2^61 on do not survive the compact form (`RoundTripsExactly`); packing turns a boolean byte other
than 0 and 1 into 1 when its record stands alone (`StrayBoolean`, `PackIsExactIff`); the dense and
the linked allocator disagree about empty ranges (`HybridKeeper.IsFreeVector`).

`dafny verify dfyconfig.toml` checks the whole project.

## Model

| member | source | states |
|---|---|---|
| `Disk.File.Do` | src/joedb/journal/Abstract_File.h:53-65 | one file operation on a disk whose unsynced writes a crash may lose; the trail of operations done is recorded |
| `Checkpoint.WritableJournal.ReadSlots` | src/joedb/journal/Readonly_Journal.cpp:73-102 | the loop over the pairs of slots leaves the process with the hard and soft checkpoints and slot indices of `ReadCheckpoint` |
| `Checkpoint.WritableJournal.Pull` | src/joedb/journal/Readonly_Journal.cpp:105-121 | a pull finds the newest hard checkpoint and the newest of all among what it knew and the slots, whatever the file size, and returns by how much the checkpoint moved |
| `Checkpoint.ReadsNewest` | src/joedb/journal/Readonly_Journal.cpp:73-102 | the loops find the largest value that both slots of a pair hold, and the largest of that, what was known, and the negated values of single slots that fit in the file |
| `Checkpoint.WritableJournal.SoftCheckpointAt` | src/joedb/journal/Writable_Journal.cpp:104-127 | only a larger position is written: negated, in the soft slot not used last; the new memory and the disk operations are exactly those of `SoftLocal` and `SoftOps` |
| `Checkpoint.WritableJournal.HardCheckpointAt` | src/joedb/journal/Writable_Journal.cpp:130-160 | the other pair is written twice with a full sync between and a data sync after, and becomes the hard pair |
| `Checkpoint.WritableJournal.Open` | src/joedb/journal/Writable_Journal.cpp:10-60 | with c the checkpoint recovered, told by the slots: a file shorter than c is refused, a longer one is refused as an aborted transaction if and only if the caller did not ask to overwrite, and otherwise exactly the soft checkpoints beyond the end of the file are replaced, with a sync each; an opening without overwriting finds a file of exactly c bytes |
| `CheckpointProtocol.NextInv` | src/joedb/journal/Writable_Journal.cpp:104-160 | every step of every process, and every crash inside one, keeps the invariant of slots and data; committed bytes are never lost, and between crashes published bytes never change |
| `CheckpointProtocol.SecondWriteIsCrashSafe` | src/joedb/journal/Writable_Journal.cpp:143-159 | between the two slot writes a crash leaves either the old hard checkpoint or the new one, and both are durable |
| `CheckpointProtocol.HardCheckpointsSurviveCrashes` | src/joedb/journal/Writable_Journal.cpp:130-160 | in every run, wherever a crash interrupts it and whatever unsynced writes it loses, an opener recovers a hard checkpoint no smaller than any that returned, with the committed bytes, and all bytes below it as they were in the file |
| `CheckpointProtocol.CommittedOnlyGrows` | src/joedb/journal/Writable_Journal.cpp:130-160 | what hard checkpoints that returned have committed only grows, along every run with any number of crashes and reopenings |
| `CheckpointProtocol.HardCheckpointCommits` | src/joedb/journal/Writable_Journal.cpp:130-160 | a hard checkpoint that returned has committed the bytes of the file below its position |
| `CheckpointProtocol.StalePullFindsNewest` | src/joedb/journal/Readonly_Journal.cpp:73-121 | in every reachable state, a pull from any stale memory finds exactly the newest checkpoint and hard checkpoint; its next checkpoint spares the hard pair and the newest soft slot |
| `CheckpointProtocol.EveryProcessIsStale` | src/joedb/journal/Writable_Journal.cpp:459-468 | in every reachable state no writing process is ahead of the file, so the previous row applies to all of them |
| `CheckpointProtocol.PublishedOnlyGrows` | src/joedb/journal/Writable_Journal.cpp:104-160 | between crashes, with any writers taking turns, bytes below a completed checkpoint never change |
| `CheckpointProtocol.PublishedIsTheFile` | src/joedb/journal/Writable_Journal.cpp:104-160 | what is published is the file below the newest checkpoint |
| `CheckpointProtocol.CheckpointIsPublished` | src/joedb/journal/Writable_Journal.cpp:104-160 | after a soft or hard checkpoint at a position, the newest checkpoint, which every pull finds, is at least that position, and the data are as they were |
| `OpenKeeps.PlainOpenKeepsAll` | src/joedb/journal/Writable_Journal.cpp:26-58 | in every run, an opening without overwriting, after a crash or not, finds all of the file checkpointed and leaves its data as they were |
| `OpenKeeps.NothingIsDiscarded` | src/joedb/journal/Writable_Journal.cpp:26-58 | so no byte of a file opened like that is discarded or changed until the next crash, whoever writes |
| `CheckpointProtocol.OpenRecovers` | src/joedb/journal/Writable_Journal.cpp:10-58 | opening recovers the hard checkpoint and the newest soft checkpoint that fits in the file |
| `CheckpointProtocol.RepairPrefixCrashSafe` | src/joedb/journal/Writable_Journal.cpp:41-58 | a crash after any number of the operations that repair the slots still leaves the committed contents recoverable |
| `CheckpointProtocol.NoCheckpointIsRevived` | src/joedb/journal/Writable_Journal.cpp:41-58 | after a writer reopened the file, every checkpoint a later opener recovers, across crashes, was written since or is not above the one found: none that was beyond the end of the file comes back |
| `CheckpointProtocol.OpenerFindsFoundOrWritten` | src/joedb/journal/Writable_Journal.cpp:41-58 | without a crash since the reopening an opener recovers exactly the newest checkpoint, which is the one found or one written since |
| `SoftRollback.OlderSoftCheckpointComesBack` | src/joedb/journal/Readonly_Journal.cpp:88-97 | a run of ten steps from a new file in which, after a second crash, an opener recovers neither the checkpoint found at the reopening nor one written since, but an older soft one |
| `CheckpointProtocol.HardenedReopenIsExact` | src/joedb/journal/Writable_Journal.cpp:130-160 | with crashes too, the checkpoint recovered is the one found or one written since, once the one found has been made hard |
| `RollbackExactly.RollbackExactly` | src/joedb/journal/Readonly_Journal.cpp:73-102 | in every reachable state, every crash recovers the checkpoint found at the reopening or one written since if and only if the hard checkpoint is such a one, or every value that some soft slot may hold is one and fits in the durable size of the file |
| `RollbackExactly.OneSoftIsExact` | src/joedb/journal/Writable_Journal.cpp:104-127 | what a writer can check: with at most one soft checkpoint and no hard one begun since the reopening, a crash at any point recovers the checkpoint found or that soft one |
| `CheckpointReaders.SharedStep` | src/joedb/journal/Readonly_Journal.cpp:73-121 | read-only processes that open and pull at any time, also a crashed file, keep the invariant of readers and writers |
| `CheckpointReaders.ReadersAreStale` | src/joedb/journal/Readonly_Journal.cpp:105-121 | while the system is up, a reader that has not strayed is at or below the newest checkpoints |
| `CheckpointReaders.StrayedExactly` | src/joedb/journal/Readonly_Journal.cpp:105-121 | after a crash and before a writer reopens the file, a reader is beyond the end of the file if and only if it has pulled while a soft checkpoint was beyond the end |
| `CheckpointReaders.StraysExactly` | src/joedb/journal/Readonly_Journal.cpp:105-121 | that pull is the only move by which a reader strays |
| `CheckpointReaders.AheadStaysAhead` | src/joedb/journal/Readonly_Journal.cpp:88-102 | a reader ahead of the newest checkpoint stays where it is, whatever it pulls, until that checkpoint catches up |
| `CheckpointReaders.ReaderStrays` | src/joedb/journal/Readonly_Journal.cpp:88-121 | a run of thirteen moves from a new file after which a reader believes in a checkpoint at 81, while the repaired file has its newest at 50 |
| `CheckpointProtocol.PullAfterOpenStaysInFile` | src/joedb/journal/Readonly_Journal.cpp:88-121 | a read-only process that opened a crashed file stays inside it at its next pull if and only if no soft slot is beyond the end of the file |
| `CompactInt.RoundTrip` | src/joedb/journal/Buffer.h:43-90 | a value below 2^61, whatever follows it, is read back and exactly its bytes are consumed |
| `CompactInt.EncodingIsShortest` | src/joedb/journal/Buffer.h:43-74 | no shorter byte string decodes to the same value |
| `JournalBytes.SmallIntegers` | src/joedb/journal/File_Buffer.h:99-104 | up to three bytes, byte by byte: most significant first, the count of extra bytes in the top three bits |
| `CompactInt.BigWrapsAround` | src/joedb/journal/Buffer.h:60-73 | from 2^61 on, what was written reads back as the remainder modulo 2^61 |
| `CompactInt.RoundTripsExactly` | src/joedb/journal/Buffer.h:43-90 | for every integer below 2^64, negative ones included, what was written reads back as itself if and only if it is not negative and below 2^61 |
| `CompactInt.CompactWrite` | src/joedb/journal/Buffer.h:43-74 | for every integer below 2^64 the branches and loops produce what the source writes, and the encoding below 2^61 |
| `CompactInt.CompactRead` | src/joedb/journal/Buffer.h:77-90 | the loop over the extra bytes decodes |
| `FileBuffer.BufferedFile.WriteBuffer` | src/joedb/journal/File_Buffer.h:49-56 | the buffered bytes go to the file; what the file with its buffer stands for does not change |
| `FileBuffer.BufferedFile.Write` | src/joedb/journal/File_Buffer.h:81-87 | at most 8 bytes are appended to the view, and the array's 8 extra bytes are never exceeded |
| `FileBuffer.BufferedFile.CompactWriteTo` | src/joedb/journal/File_Buffer.h:99-104 | the encoding of the value is appended to the view |
| `FileBuffer.BufferedFile.WriteData` | src/joedb/journal/File_Buffer.h:158-174 | any number of bytes is appended to the view, through the buffer or past it |
| `FileBuffer.BufferedFile.Flush` | src/joedb/journal/File_Buffer.cpp:16-27 | the view is kept and the buffer is empty |
| `FileBuffer.BufferedFile.SetPosition` | src/joedb/journal/File_Buffer.cpp:30-35 | the contents of the view are kept, the position is the one asked for |
| `FileBuffer.BufferedFile.ReadBuffer` | src/joedb/journal/File_Buffer.h:36-46 | a refill, with a read that may be short, keeps the view |
| `FileBuffer.BufferedFile.ReadData` | src/joedb/journal/File_Buffer.h:177-207 | exactly the next bytes of the view, or a failure exactly when the file ends before |
| `FileBuffer.BufferedFile.CompactReadFrom` | src/joedb/journal/File_Buffer.h:107-123 | the fast and the slow path both give the value at the position of the view and move past it |
| `FileBuffer.BufferedFile.Ignore` | src/joedb/journal/File_Buffer.h:210-217 | the position of the view moves, inside the buffer or by repositioning |
| `FileBuffer.Perform` | src/joedb/journal/File_Buffer.h:68-217 | one operation gives the output and the state of the same operation on an unbuffered file |
| `FileBuffer.PerformAll` | src/joedb/journal/File_Buffer.h:36-217 | every legal run of operations gives the outputs, bytes and positions of the unbuffered file, whatever short reads the file makes, up to a read past the end of the file, which fails in both |
| `JournalFormat.RenderedIsLaid` | src/joedb/journal/File_Buffer.h:99-155 | tokens written at a place are found by the reader at that place and end where their bytes end |
| `JournalFormat.StringBack` | src/joedb/journal/Readonly_Journal.cpp:409-413 | a string below the checkpoint is read back; the size guard does not fire |
| `JournalFormat.ValueBack` | src/joedb/journal/Readonly_Journal.cpp:8-20 | a value of any of the ten types is read back |
| `JournalFormat.ValuesBack` | src/joedb/journal/Readonly_Journal.cpp:415-433 | the values of a vector are read back, and they take at least a byte each |
| `JournalCodec.StepReadsBack` | src/joedb/journal/Readonly_Journal.cpp:187-395 | one operation, in whichever of its forms the writer chose, is delivered and leaves the reader with the writer's context; the only one refused is a non-empty vector update of the null record |
| `JournalCodec.AgreeKept` | src/joedb/journal/Readonly_Journal.cpp:278-306 | what operations have set they have set alike in writer and reader; and an operation that relies only on that is in step |
| `JournalCodec.ShortRead` | src/joedb/journal/Readonly_Journal.cpp:278-298 | a short form is read with the reader's own memory in place of what the writer left out, whatever that memory is |
| `JournalBytes.OperationsStartWithCode` | src/joedb/journal/Readonly_Journal.h:51-80 | every operation starts with its code of the enumeration, and insertions and updates with that of the form chosen |
| `JournalBytes.SmallRecordOperations` | src/joedb/journal/Writable_Journal.cpp:319-349 | with small ids the bytes of vector insertions and deletions are code, table, record plus one, count |
| `JournalBytes.SmallUpdate` | src/joedb/journal/Writable_Journal.cpp:388-412 | and those of a full update are code, table, record plus one, field, value |
| `JournalBytes.FirstInsertion` | src/joedb/journal/Readonly_Journal.cpp:23-30 | a new writer takes the last record to be -1 of table 0, so only an insertion of record 0 in table 0 has the short form |
| `JournalBytes.TypesAreNumbered` | src/joedb/Type.h:17-28 | types are numbered from 1 in the order of their list |
| `JournalBytes.FixedSizes` | src/joedb/TYPE_MACRO.h:5-32 | a value of a type with a fixed size is as many bytes as its name says, as they are in memory |
| `JournalBytes.StepIsBounded` | src/joedb/journal/Readonly_Journal.cpp:187-413 | whatever the bytes of a file, one step delivers only 16-bit ids, strings below the checkpoint, and vectors no longer than the checkpoint from a record on |
| `JournalBytes.UnknownCodeFails` | src/joedb/journal/Readonly_Journal.cpp:389-395 | a byte that is the code of no operation stops the reader |
| `JournalWriter.Writer.constructor` | src/joedb/journal/Writable_Journal.cpp:10-26 | a writer starts at the end of the header, with an empty buffer and the reset context |
| `JournalWriter.Writer.InsertInto` | src/joedb/journal/Writable_Journal.cpp:282-303 | `append` if the record continues the last operation, else the full form; the memory follows |
| `JournalWriter.Writer.InsertVector` | src/joedb/journal/Writable_Journal.cpp:319-334 | the full form; the memory is the first record |
| `JournalWriter.Writer.GenericUpdate` | src/joedb/journal/Writable_Journal.cpp:352-398 | one of three forms, chosen by the memory; afterwards the memory is the table, record and field of the update |
| `JournalWriter.Writer.Update` | src/joedb/journal/Writable_Journal.cpp:402-412 | the bytes of the update and of its value are appended |
| `JournalWriter.Writer.UpdateVector` | src/joedb/journal/Writable_Journal.cpp:413-443 | table, record, field, size and all values are appended |
| `JournalWriter.Writer.WriteBlob` | src/joedb/journal/Writable_Journal.cpp:447-456 | the place returned is where the data lies in the file |
| `JournalWriter.Writer.WriteOther` | src/joedb/journal/Writable_Journal.cpp:177-279 | schema, information and deletion events are appended and leave the memory alone |
| `JournalWriter.Writer.WriteAll` | src/joedb/journal/Writable_Journal.cpp:177-456 | any sequence of operations, through the buffer, appends its log to the file and leaves the memory that remembers it |
| `JournalReader.CompactIsFound` | src/joedb/journal/File_Buffer.h:107-123 | a compact integer found in the view of a buffer is the one the codec reads in the flat bytes, or neither is there |
| `JournalReader.ValuesIn` | src/joedb/journal/Readonly_Journal.cpp:415-433 | the loop over a vector, through the buffer, reads the values that lie in the flat bytes and stops after them, or fails as they end too early |
| `JournalReader.Reader.OneStepIn` | src/joedb/journal/Readonly_Journal.cpp:187-395 | one operation, read through a buffer with short reads, is the one that lies in the flat bytes: same deliveries, same place after it, same context, and a failure exactly when that fails |
| `JournalReader.Reader.RawPlayUntil` | src/joedb/journal/Readonly_Journal.cpp:158-163 | the loop over a buffered file delivers what the replay of its flat bytes delivers and ends where that ends, or delivers the same operations before the step that throws |
| `JournalReader.WriteThenReplay` | src/joedb/journal/Readonly_Journal.cpp:158-433 | operations written through a buffer to a file and replayed through another buffer come back as they were, up to the first that the reader refuses; the replay succeeds if and only if none is refused |
| `JournalReplay.ReplayLog` | src/joedb/journal/Readonly_Journal.cpp:158-395 | a log anywhere below the checkpoint replays to its operations, for contexts that agree on what the log relies on |
| `JournalReplay.JournalRoundTrip` | src/joedb/journal/Readonly_Journal.cpp:158-433 | a journal written from a reset context replays to the same operations minus empty vector updates, ends exactly at the checkpoint and with the writer's context, if and only if no non-empty vector update is of the null record |
| `JournalReplay.SplicesExactly` | src/joedb/journal/Writable_Journal.cpp:289-397 | a log written from a reset context is read correctly by every reader, whatever its context, if and only if no operation of it is written in a form that relies on what no operation before it has set |
| `JournalReplay.SpliceReplays` | src/joedb/journal/Writable_Journal.cpp:289-397 | so it is whenever table and field ids are nonzero |
| `JournalReplay.SpliceNeedsNonzeroIds` | src/joedb/journal/Readonly_Journal.cpp:278-280 | with table id 0 the short form is chosen, the condition fails, and a reader applies it to its own table |
| `ServerObject.SharedServer.RemoveFromQueue` | src/joedb/concurrency/Server.cpp:47-53 | the first occurrence of the session leaves the queue |
| `ServerMeaning.UnlockHandsOver` | src/joedb/concurrency/Server.cpp:119-142 | giving the lock back wakes the front waiter, or frees the lock if nobody waits, and the lock of a shared file with it; the log does not change |
| `ServerMeaning.TimeoutAborts` | src/joedb/concurrency/Server.cpp:145-171 | a session that times out has neither lock nor writer, its push is marked, and its bytes stay out of the log |
| `ServerMeaning.DisconnectForgets` | src/joedb/concurrency/Server.cpp:56-64 | a session that ends is gone, also from the queue, where the others wait as before; its lock is handed over, the log unchanged |
| `ServerMeaning.ResumeIsFront` | src/joedb/concurrency/Server.cpp:87-116 | the session that resumes is the front of the queue, it alone is locking, and it is to be sent what it asked for: the log from where it stands to its end, or nothing |
| `ServerMeaning.PullLocksOrQueues` | src/joedb/concurrency/Server.cpp:337-347 | a pull that wants the lock gets it when nobody has it, is queued last otherwise, and ends if it has it already; unless queued or ended it is to be sent the log from where it stands, if it asked for data, and nothing otherwise |
| `PullMeaning.PullAsksForTail` | src/joedb/concurrency/Server.cpp:302-347 | a request waits if it was asked to and the client has all of the log; else it goes on to be sent the log from where the client stands to its end, which the server has just learnt |
| `PullMeaning.WaitEndsInTail` | src/joedb/concurrency/Server.cpp:315-347 | when the wait for news ends the pull goes on with what it asked for |
| `PullMeaning.PullDelivers` | src/joedb/concurrency/Server.cpp:174-205 | in every run, a client that pulled and was sent everything has got exactly the log from where it stood to an end not below the end of the log when it asked; nothing if it asked for no data |
| `ServerMeaning.SendAdvances` | src/joedb/concurrency/Server.cpp:174-205 | each chunk sent is the next bytes of the log |
| `ServerMeaning.IdleServerLetsOthersIn` | src/joedb/concurrency/Server.cpp:119-142 | in every run, while no session has the lock, the server has not locked a shared file |
| `ServerMeaning.PushStartsAtCheckpoint` | src/joedb/concurrency/Server.cpp:350-401 | a non-empty push may write if and only if the server is writable, nobody else is locking, and it starts at the end of the log; its code tells read-only, conflict or success; if another session is locking its session ends |
| `ServerMeaning.EmptyPushIsAnswered` | src/joedb/concurrency/Server.cpp:350-461 | an empty push is answered at once with the same code, commits nothing, takes the lock, and gives it back if asked to |
| `ServerMeaning.ChunkCommitsAllOrNothing` | src/joedb/concurrency/Server.cpp:403-461 | a chunk leaves the log alone until it completes the push; then the whole payload is appended if the push still has its writer, and nothing otherwise, the reply says which, and the lock is given back if that was asked for |
| `ServerObject.SharedServer.Push` | src/joedb/concurrency/Server.cpp:350-401 | on the object: admitted to writing if and only if the push starts at the end of the log and nobody else is locking, with the code that says so; an empty push is answered at once |
| `ServerObject.SharedServer.Chunk` | src/joedb/concurrency/Server.cpp:403-461 | on the object: the last chunk appends the whole payload, or nothing, and the reply says which |
| `ServerObject.SharedServer.Pull` | src/joedb/concurrency/Server.cpp:298-347 | on the object: the pull waits, ends, is queued, or is to be sent the log from where the client stands to its end |
| `ServerObject.SharedServer.EndPullWait` | src/joedb/concurrency/Server.cpp:315-347 | on the object: after the wait the pull is sent what it asked for, up to what the server knows |
| `ServerObject.SharedServer.Resume` | src/joedb/concurrency/Server.cpp:87-116 | on the object: the front waiter, and nobody else, is locking and is to be sent what it asked for |
| `ServerObject.SharedServer.TimeoutFires` | src/joedb/concurrency/Server.cpp:145-171 | on the object: neither lock nor writer is left, the lock is handed over, the log unchanged |
| `ServerObject.SharedServer.Perform` | src/joedb/concurrency/Server.cpp:47-461 | every action of the protocol, on the object, keeps the invariant: the log is the initial one followed by what was committed, and at most one session is locking |
| `ServerObject.SharedServer.PerformAll` | src/joedb/concurrency/Server.cpp:47-461 | any legal run of the object goes through the states of the protocol; in the end its log is the old one followed by exactly the committed payloads, the lock went round in FIFO order, and a live writer belongs to the locking session |
| `Server.StepInv` | src/joedb/concurrency/Server.cpp:47-461 | each stretch of code between two waits keeps the invariant of journal, log, lock, sessions and replies |
| `Server.LogIsCommittedPushes` | src/joedb/concurrency/Server.cpp:350-461 | in every interleaving of chunked pushes, conflicts, timeouts and disconnections, the checkpointed log is the initial log followed by exactly the committed payloads in order |
| `Server.LockSafety` | src/joedb/concurrency/Server.cpp:67-171 | in every reachable state at most one session is locking, a push writer belongs to it and started at the current checkpoint, and `locked` holds exactly when there is a holder or the front waiter has been woken |
| `Server.LockIsFifo` | src/joedb/concurrency/Server.cpp:67-142 | those who waited for the lock got it in the order in which they asked, and the rest are queued in that order |
| `Server.SentIsLog` | src/joedb/concurrency/Server.cpp:174-205 | what a pull has sent is a slice of the log, whatever is pushed meanwhile |
| `Server.ReplyTellsCommit` | src/joedb/concurrency/Server.cpp:424-461 | a non-empty push was committed if and only if its own code came back, and then its payload is in the log at its place |
| `Server.StepExplained` | src/joedb/concurrency/Server.cpp:350-461 | one step adds nothing to the log, or the payload of the one push it completes, or what another process checkpointed |
| `Server.LogOnlyGrows` | src/joedb/concurrency/Server.cpp:145-461 | the log only grows by appending: bytes of an aborted push never fall below the checkpoint |
| `RobustPush.CommitsNeverOverlap` | src/joedb/concurrency/Server.cpp:370-392 | two committed pushes never start at the same position |
| `RobustPush.RetryMeetsConflict` | src/joedb/concurrency/Server.cpp:370-382 | a retry that the server receives after it committed the push meets the conflict |
| `RobustPush.ServedThroughout` | src/joedb/concurrency/Server.cpp:403-422 | while a push is served it stays the same push, and a writer that it lost is not given back |
| `RobustPush.ConflictIsAnswered` | src/joedb/concurrency/Server.cpp:370-461 | a push requested after one from the same position was committed is answered with the conflict, or never answered |
| `RobustPush.SecondRequestIsRejected` | src/joedb/concurrency/Server.cpp:361-382 | of two requests from the same position, when the first is committed the second is answered with the conflict or not at all, also if it arrives while the first is being received |
| `RobustPush.RobustConnection.Push` | src/joedb/concurrency/Robust_Connection.h:39-56 | the loop retries after lost or missing replies and timeouts only, stops at a conflict, and goes on only with a server whose log matches and has not become shorter since the last connection |
| `RobustPush.RetriedPushIsAppendedOnce` | src/joedb/concurrency/Server_Connection.cpp:145-201 | of the attempts of a non-empty push, answered or not, at most one was committed; when one was, every later attempt that is answered at all meets the conflict and stops the retrying |
| `LostReply.LostReplyEndsInConflict` | src/joedb/concurrency/Server.cpp:361-461 | a run of seven steps in which the server commits a push, its reply is lost, and the retry on a new connection ends in the conflict, with the payload in the log once |
| `RobustPush.RobustPushIsExact` | src/joedb/concurrency/Robust_Connection.h:39-56 | in any run of the server, a success of the loop means that its last attempt, and only that one, was committed; once an attempt was committed the loop ends at the next answer it gets, and not with a success |
| `PushAnswers.AnswerTells` | src/joedb/concurrency/Server.cpp:370-461 | the answer to a non-empty push is the code its request deserved, or a timeout if it deserved success and its session timed out meanwhile; it was committed if and only if the code is one of success |
| `PushAnswers.ClientUnderstands` | src/joedb/concurrency/Server_Connection.cpp:187-200 | the client makes a success of an answer exactly if its push was committed, a retry exactly if it timed out, and an end exactly if the server is read-only or its log did not end where the push began |
| `Files.FullPread` | src/joedb/journal/Abstract_File.cpp:12-36 | short reads are repeated until all bytes are there, or the file ends |
| `Files.EqualTo` | src/joedb/journal/Abstract_File.cpp:72-129 | the block loop answers whether both files hold the same bytes in the range, or says which file is too short |
| `Files.CopyTo` | src/joedb/journal/Abstract_File.cpp:39-69 | a range of one file overwrites the same range of the other; if it ends too early a part has been copied |
| `Replication.JournalObject.PullFrom` | src/joedb/journal/Writable_Journal.cpp:63-78 | what is missing is copied and checkpointed; if the source ends too early some of it has been copied and none is checkpointed |
| `Replication.ClientObject.Handshake` | src/joedb/concurrency/File_Connection.cpp:6-56 | succeeds if and only if both files are the same up to the smaller checkpoint |
| `Replication.ClientObject.Pull` | src/joedb/concurrency/Writable_Client.h:92-117 | refused when the client is ahead of its connection, else the client has the server's log |
| `Replication.ClientObject.Push` | src/joedb/concurrency/Client.h:19-30 | refused when the server has moved, else the server has the client's log up to the position; a whole push makes the checkpoints and what was missing equal |
| `Replication.PullCopies` | src/joedb/journal/Writable_Journal.cpp:63-78 | pulling makes the destination's log the source's, if it agreed so far |
| `Replication.StepInv` | src/joedb/concurrency/File_Connection.cpp:101-135 | connecting, pulling, writing, pushing, aborting, a push whose reply is lost and a pull that breaks half-way keep every client in agreement with the server |
| `Replication.ClientsAgreeWithServer` | src/joedb/concurrency/Writable_Client.h:92-117 | in every run of many clients, each client's log agrees with the server's up to the smaller of its checkpoint and its connection's |
| `Replication.LogsOnlyGrow` | src/joedb/concurrency/File_Connection.cpp:122-135 | in every run the server's log and each client's log only grow by appending |
| `Replication.SynchronizedAfterPull` | src/joedb/concurrency/File_Connection.cpp:101-119 | after a pull the client's log is the server's |
| `Replication.WriteAppends` | src/joedb/concurrency/Writable_Client.h:92-117 | a transaction appends its bytes to the client's log and touches no other |
| `Replication.PushPublishes` | src/joedb/concurrency/File_Connection.cpp:122-135 | a push changes nothing at the server unless the client knows its checkpoint; otherwise the server has the client's log up to where the push ends, and the client knows it |
| `Replication.SynchronizedAfterPush` | src/joedb/concurrency/File_Connection.cpp:122-135 | after a whole push the two logs are the same |
| `Rings.UnlinkRing` | src/joedb/Freedom_Keeper.h:162-201 | unlinking a member leaves a ring of the others in the same order |
| `Rings.InsertRing` | src/joedb/Freedom_Keeper.h:139-201 | linking a new member leaves a ring with it at its place |
| `Rings.WalkVisitsAll` | src/joedb/Freedom_Keeper.h:79-82 | a walk from the head visits every member once, in order, backwards in reverse order, and comes back |
| `FreedomKeeper.PushBackRings` | src/joedb/Freedom_Keeper.h:139-152 | `push_back` keeps two disjoint rings that cover all ids, with matching flags |
| `FreedomKeeper.UseRings` | src/joedb/Freedom_Keeper.h:162-180 | `use` moves an id from the free ring to the end of the used ring |
| `FreedomKeeper.FreeRings` | src/joedb/Freedom_Keeper.h:183-201 | `free` moves an id back to the free ring |
| `FreedomKeeper.ListKeeper.PushBack` | src/joedb/Freedom_Keeper.h:139-152 | one more id, free; the used list is kept |
| `FreedomKeeper.ListKeeper.Use` | src/joedb/Freedom_Keeper.h:162-180 | the id is appended to the used list, and counted |
| `FreedomKeeper.ListKeeper.Free` | src/joedb/Freedom_Keeper.h:183-201 | the id is removed from the used list, the others keep their order |
| `FreedomKeeper.ListKeeper.IsFreeVector` | src/joedb/Freedom_Keeper.h:89-103 | true exactly when no id of the range is used; ids not allocated yet count as free |
| `FreedomKeeper.HybridKeeper.QueriesAnswerForModel` | src/joedb/Freedom_Keeper.h:402-426 | dense or not, size, count, membership and both neighbours are those of the abstract sequence |
| `FreedomKeeper.HybridKeeper.StepsVisitUsed` | src/joedb/Freedom_Keeper.h:402-413 | n steps of get_next or get_previous from the list head, dense or not, are at the n-th used id from the front or the back, and return to the head after all of them |
| `FreedomKeeper.HybridKeeper.QueriesAnswerForFree` | src/joedb/Freedom_Keeper.h:402-413 | dense or not, the free list has each id that is not in use once, and its neighbours are those of the walk |
| `FreedomKeeper.HybridKeeper.StepsVisitFree` | src/joedb/Freedom_Keeper.h:402-413 | n steps from the head of the free list are at the n-th id in the order in which free ids would be taken |
| `FreedomKeeper.HybridKeeper.GetFreeRecord` | src/joedb/Freedom_Keeper.h:127-136 | the id given out is the first of the free list; the table grows, by one, if and only if no id is free |
| `FreedomKeeper.HybridKeeper.LoseCompactness` | src/joedb/Freedom_Keeper.h:388-399 | switching to the linked form keeps size and used order, and reverses the free list |
| `FreedomKeeper.HybridKeeper.Use` | src/joedb/Freedom_Keeper.h:434-446 | the abstract `use`; the free list loses the id; the form stays dense if and only if the id is the next one |
| `FreedomKeeper.HybridKeeper.Free` | src/joedb/Freedom_Keeper.h:448-460 | the abstract `free`; the id becomes the next to be taken; the form stays dense if and only if it was the last one |
| `FreedomKeeper.HybridKeeper.UseVector` | src/joedb/Freedom_Keeper.h:462-474 | the abstract `use` of consecutive ids |
| `FreedomKeeper.HybridKeeper.FreeVector` | src/joedb/Freedom_Keeper.h:476-488 | the abstract `free` of consecutive ids |
| `FreedomKeeper.HybridKeeper.IsFreeVector` | src/joedb/Freedom_Keeper.h:304-307 | for a non-empty range the two forms answer alike; for an empty one they differ, and how is stated |
| `FreedomKeeper.PerformFirst` | src/joedb/Freedom_Keeper.h:379-489 | any valid sequence of operations, asking for free ids included, leaves the hybrid keeper with the abstract sequence of used ids |
| `EncodedFile.NewestIsFlat` | src/joedb/journal/Readonly_Encoded_File.cpp:14-66 | the newest buffer that covers a position has the byte of the flat file; a position in the file that none covers is zero |
| `EncodedFile.GapFreeIsCovered` | src/joedb/journal/Readonly_Encoded_File.cpp:14-66 | when no write started past the end, exactly the positions of the file are covered |
| `EncodedFile.GatherSkip` | src/joedb/journal/Readonly_Encoded_File.cpp:24-37 | skipping a buffer that is not adjacent, or empty, or too big, loses no byte that was already promised |
| `EncodedFile.GatherCopy` | src/joedb/journal/Readonly_Encoded_File.cpp:32-62 | copying a buffer over what was gathered keeps it correct, newest byte winning |
| `EncodedFile.EncodedFile.Load` | src/joedb/journal/Readonly_Encoded_File.cpp:34-52 | the decode cache holds the decoding of the buffer it names; one that is too big is not decoded |
| `EncodedFile.EncodedFile.ReadonlyPread` | src/joedb/journal/Readonly_Encoded_File.cpp:6-67 | for any table of buffers the result is a prefix of the newest bytes, empty if and only if nothing was asked or the offset is not covered; without gaps it is all there is |
| `EncodedFile.EncodedFile.WriteBlob` | src/joedb/journal/Encoded_File.cpp:27-33 | one more write of the flat file; cache and earlier buffers stay valid |
| `EncodedFile.EncodedFile.FlushWriteBuffer` | src/joedb/journal/Encoded_File.cpp:36-44 | the flat contents are kept, the buffer is empty |
| `EncodedFile.EncodedFile.Pread` | src/joedb/journal/Encoded_File.cpp:14-24 | a prefix of the flat contents, never empty at an offset inside a file written without gaps |
| `EncodedFile.EncodedFile.Pwrite` | src/joedb/journal/Encoded_File.cpp:47-84 | the flat file with the bytes written at the offset, through buffer filling, flushing and splitting at the capacity; gap-freeness is kept if and only if the write does not start past the end |
| `EncodedFile.EncodedFile.WriteBlocks` | src/joedb/journal/Encoded_File.cpp:66-76 | full blocks go to the table directly, what is left is smaller than a block |
| `EncodedFile.EncodedFile.GetSize` | src/joedb/journal/Encoded_File.cpp:109-117 | the size of the flat contents, pending bytes included |
| `EncodedFile.EncodedFile.WriteAll` | src/joedb/journal/Encoded_File.cpp:47-84 | any sequence of writes gives the flat file of the same writes |
| `Tables.StaysValid` | src/joedb/interpreted/Table.cpp:18-92 | every event that does not throw keeps every column exactly as long as its table, and ids within range |
| `Tables.ReplayStaysValid` | src/joedb/interpreted/Table.cpp:18-92 | so does every sequence of events |
| `Tables.ReplayNamesStayDistinct` | src/joedb/interpreted/Database_Schema.cpp:105-192 | in every database that a journal gives, no two tables have the same name, and no two fields of a table |
| `Tables.DroppedStaysDropped` | src/joedb/interpreted/Database_Schema.cpp:121-170 | the id of a dropped table or field is never given again, whatever events follow |
| `Tables.IdentifierGrows` | src/joedb/is_identifier.cpp:16-36 | which names are identifiers, told byte by byte |
| `JournalBytes.DefaultsAreZeros` | src/joedb/interpreted/Table.cpp:18-30 | the value of a new record would be written as zero bytes, whatever the type |
| `Effects.EventDoesSo` | src/joedb/interpreted/Database.cpp:7-81 | an event throws exactly when it is not allowed; otherwise the table, field, name, record or value it is about is there, gone or changed, and everything else is as it was |
| `Effects.EventDoesOnlyThat` | src/joedb/interpreted/Database.cpp:7-81 | that determines the database afterwards: an event does nothing else |
| `TableObject.TableObject.InsertRecord` | src/joedb/interpreted/Table.cpp:43-57 | columns and freedom keeper grow together until the record exists, and it is used; refused when it is already |
| `TableObject.TableObject.InsertVector` | src/joedb/interpreted/Table.cpp:68-84 | through the freedom keeper, both branches use exactly the records asked for; a non-empty range is refused unless all are free |
| `TableObject.TableObject.DeleteVector` | src/joedb/interpreted/Table.cpp:87-92 | through the freedom keeper, exactly the records of the range become free and no other flag changes; a non-empty range is refused unless all are used |
| `TableObject.TableObject.UpdateVector` | src/joedb/interpreted/Table.h:66-85 | exactly these values change; refused for a wrong field, type, or first or last record |
| `PackObject.Database.Handle` | src/joedb/interpreted/Database.cpp:7-81 | an event throws exactly when it is not allowed, and then changes nothing; otherwise it does to the objects what it should and nothing else |
| `PackObject.Database.DropTable` | src/joedb/interpreted/Database_Schema.cpp:121-129 | the table and its name are gone, every other table and name is as it was, and the id is not given again |
| `PackObject.Database.RenameTable` | src/joedb/interpreted/Database_Schema.cpp:132-149 | the table has the name asked for and nothing else moves; refused for a name that is invalid or used |
| `PackObject.CheckIdentifier` | src/joedb/is_identifier.cpp:16-36 | the loop with its previous character accepts exactly the identifiers |
| `Pack.StripStep` | src/joedb/ui/dump.cpp:179-192 | schema events do to the schema alone what they do to the database, other events do nothing to it |
| `Pack.SchemaReplays` | src/joedb/ui/dump.cpp:179-192 | replaying only the schema events gives the same tables and fields, empty |
| `Pack.RunRebuilds` | src/joedb/ui/dump.cpp:134-170 | the events of one run of used records insert exactly these records and give them their values, a single boolean through bool |
| `Pack.TableRebuilt` | src/joedb/ui/dump.cpp:118-173 | replaying the dump of a table into an empty table of the same fields gives the same used records, and their values as packing rewrites them |
| `Pack.PackPreserves` | src/joedb/ui/dump.cpp:113-195 | for every journal that can be replayed and has no blobs, replaying the packed journal gives the same table ids, names, field ids, names and types, used record ids, and values of used records, where a boolean of a record between free ones has become 0 or 1; columns are as long as their tables |
| `PackExact.PackIsExactIff` | src/joedb/ui/dump.cpp:160-164 | the values are the same byte for byte if and only if no record that stands alone between free ones has a boolean byte other than 0 and 1 |
| `PackExact.StrayBoolean` | src/joedb/ui/dump.cpp:160-164 | a writable and readable journal of four events that leaves such a byte |
| `PackExact.PackedIsSound` | src/joedb/ui/dump.cpp:143-166 | every packed event can be written, and the reader neither refuses nor drops it, when the events of the journal can be written and no table has 2^61 records |
| `PackExact.PackedFileReplays` | src/joedb/ui/dump.cpp:113-195 | the packed journal, written to a file and read back, gives the database as packing rewrites it |
| `Pack.PackIsIdempotent` | src/joedb/ui/dump.cpp:113-195 | packing a packed journal gives the same events |
| `PackForm.PackedForm` | src/joedb/ui/dump.cpp:179-192 | the packed journal begins with exactly the create, drop, rename, add_field, drop_field, rename_field and custom events of the input, in their order; after them come only whole runs of used records and their values |
| `PackForm.DataAreSorted` | src/joedb/ui/dump.cpp:113-170 | these come table by table, record by record, an insertion and then field by field, each once |
| `PackForm.PackThrows` | src/joedb/ui/dump.cpp:179-195 | packing throws if and only if an event is not allowed in the database that the events before it give, or the journal has a blob |
| `PackObject.NextRun` | src/joedb/ui/dump.cpp:121-141 | the two inner loops find the next run of used records and all of it |
| `PackObject.DumpTable` | src/joedb/ui/dump.cpp:118-173 | the record loop emits the runs in order, each followed by its fields |
| `PackObject.DumpData` | src/joedb/ui/dump.cpp:113-176 | the tables are dumped in the order of their ids |
| `PackObject.PackJournal` | src/joedb/ui/dump.cpp:179-195 | playing into the database object and the schema filter and dumping the data emits the packed journal, which begins with the definitions and custom events of the input; it throws only if an event does or there is a blob, where an event with an empty range may throw or not |
| `Hashing.Hasher.Schedule` | src/joedb/journal/SHA_256.h:72-93 | the two loops fill the message schedule of section 6.2.2 of FIPS 180-4 |
| `Hashing.ShiftsAreBigEndian` | src/joedb/journal/SHA_256.h:78-82 | four bytes shifted and joined are the big-endian word |
| `Hashing.ShiftsAreRotations` | src/joedb/journal/SHA_256.h:11-14 | shifts to both sides, joined, are the rotations in the functions of section 4.1.2 of FIPS 180-4 |
| `Sha256Meaning.RoundConstantsAreCubeRoots` | src/joedb/journal/SHA_256.h:36-56 | each round constant is the first 32 bits of the fraction of the cube root of a prime |
| `Sha256Meaning.InitialWordsAreSquareRoots` | src/joedb/journal/SHA_256.h:22-33 | each word of the initial hash is that of a square root |
| `Sha256Meaning.Chooses` | src/joedb/journal/SHA_256.h:99-101 | `Ch` takes each bit from one of two words, by the bits of the third |
| `Sha256Meaning.TakesMajority` | src/joedb/journal/SHA_256.h:103-104 | `Maj` takes the majority of three words, bit by bit |
| `Hashing.Hasher.RoundInPlace` | src/joedb/journal/SHA_256.h:97-114 | moving the working variables in place is one round of the standard |
| `Hashing.Hasher.ProcessChunk` | src/joedb/journal/SHA_256.h:70-118 | a chunk has the effect of the compression of the standard |
| `Hashing.Hasher.PutLength` | src/joedb/journal/SHA_256.h:138-145 | the loop from the last byte writes the length in big-endian order and nothing else |
| `Hashing.Hasher.ProcessFinalChunk` | src/joedb/journal/SHA_256.h:124-149 | the last bytes are hashed with the padding of section 5.1.1, in one or two chunks as needed |
| `Sha256Meaning.PaddedMessage` | src/joedb/journal/SHA_256.h:124-149 | the padded message is the message, the byte 0x80, fewer than 64 zero bytes, and the length in bits as a 64-bit number |
| `Hashing.SplitMessage` | src/joedb/journal/get_hash.cpp:22-46 | the digest is the hash of the whole chunks before any cut, continued with the padded rest |
| `Hashing.GetFullHash` | src/joedb/journal/get_hash.cpp:9-49 | the block loop gives the SHA-256 of exactly the bytes of the range; it throws if and only if the file is too short |
| `Hashing.SamplesAreDisjoint` | src/joedb/journal/get_hash.cpp:84-98 | on a large range the samples are increasing, do not overlap and lie inside the range; the first begins it and the last ends it |
| `Hashing.SampleIsNear` | src/joedb/journal/get_hash.cpp:91-97 | an inner sample is the last whole block of 4096 bytes at or before its place in an even division of the range |
| `Hashing.GetFastHash` | src/joedb/journal/get_hash.cpp:67-108 | a small range is hashed whole; of a large one exactly the samples are hashed, without padding |
| `StringEscape.WriteString` | src/joedb/ui/minimal_runtime_io.cpp:39-110 | the loop with its index jumps writes the pieces of `Written`, or throws with it |
| `StringEscape.ReadString` | src/joedb/ui/type_io.cpp:12-72 | spaces, quotes, hexadecimal and octal escapes, and the end of the text, as in `Reads` |
| `StringEscape.PieceBack` | src/joedb/ui/type_io.cpp:31-61 | one written piece is read back as the bytes it was written for, and reading goes on after it |
| `StringEscape.RoundTrip` | src/joedb/ui/type_io.cpp:12-72 | for every byte string and whatever text follows, what `write_string` wrote is read back and reading stops just after the closing quote |
| `StringEscape.MultibyteIsChar` | src/joedb/ui/minimal_runtime_io.cpp:68-98 | the writer recognises exactly the multi-byte characters of section 4 of RFC 3629 |
| `StringEscape.OutputIsUtf8` | src/joedb/ui/minimal_runtime_io.cpp:39-110 | whatever is written is well-formed UTF-8, even when the string is not |
| `StringEscape.JsonThrowsExactly` | src/joedb/ui/minimal_runtime_io.cpp:29-110 | JSON output throws if and only if the string is not well-formed UTF-8 |
| `Json.JsonRoundTrip` | src/joedb/ui/minimal_runtime_io.cpp:29-110 | whatever is written as JSON is read back by a reader of JSON strings (section 7 of RFC 8259), whatever follows |
| `Escapes.OutputIsClean` | src/joedb/ui/minimal_runtime_io.cpp:39-66 | no control character is written, and no two question marks in a row |
| `Escapes.PlainTextIsQuoted` | src/joedb/ui/minimal_runtime_io.cpp:39-110 | text of whole characters without control characters, quotes, backslashes and question marks is only put in quotes |
| `Escapes.HexadecimalIsRead` | src/joedb/ui/type_io.cpp:31-61 | a backslash, `x` and two hexadecimal digits are read as their byte |
| `Escapes.WordIsRead` | src/joedb/ui/type_io.cpp:12-30 | an unquoted word between spaces is read as it stands |

## Left out

- Checkpoint.WritableJournal.Open: does not create the header of a new file, open a file whose size is unknown, or ignore the header in a recovery; a file is taken as new when its header is durable.
- A process that is killed while the machine goes on, in the middle of a checkpoint.
- HardenedReopenIsExact: the condition it gives is sufficient only; the exact one is that of RollbackExactly.
- Replaying into a database that offers its own storage for vectors: the capacity guard of `update_vector` is not modelled, and `play_until` is `raw_play_until` with notifications around it.
- Shared client files in replication: `get_tail_lock` compares contents only between the connection's checkpoint and the journal's, so another process that changes the same client file is outside the model.
- Upstream connections of a server other than the file itself, its read, check-hash and ping requests, keep-alive, and its log messages.
- RobustPush.RobustConnection.Push: how long `reconnect` sleeps is not modelled, nor are reads and pulls retried by the same loop.
- Tables.InsertVector and Tables.DeleteVector: accept an empty range of records at any id that is not negative; the source asserts something that depends on whether the allocator is dense, which the table objects do. Packed journals have no empty ranges.
- Packing: the order of the used list and the number of free records at the end of a table are not preserved, nor is anything about free records.
- Databases with a maximum record id, and references to tables that do not exist, which the source does not check either.
- Hashing.GetFullHash: the range must not be reversed; lengths from 2^61 bytes on, for which FIPS 180-4 defines nothing, use the low 64 bits of the length in bits.
- EncodedFile.EncodedFile: the database of the blobs, its checkpoints and its journal are a sequence of rows here; 64-bit overflow of offsets in a hostile table is not modelled.
- Posix, Windows, SFTP, CURL and in-memory files, channels, ssh, websockets, Brotli: only the contract of a file and of a codec is modelled.
- Code generators, compiled databases, command interpreters, SQL dumps, `filebuf`, RPC, namespaces, base64: text output, or wiring around what is modelled.
- Fast content checks as evidence of equality: they compare samples only.
