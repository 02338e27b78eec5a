# Distributed File Grid: verified model

A Dafny 4.11 model of the engines under Distributed File Grid, a chunked and replicated
file store written in C++, with proofs of what they promise over whole runs and unbounded
inputs. `dafny verify dfyconfig.toml` checks everything.

Sockets, clocks, disks and other processes are parameters: oracles that succeed with bytes
or fail, schedules of how a kernel cuts a stream, readings of a clock. Code that works by
changing things is modelled by classes and loops, each proved against a function on values;
concurrent code is a transition system in which every critical section is one step.

| part | modules |
|---|---|
| hashing | `Sha256Spec`, `Sha256Constants`, `Sha256Example`, `Sha256Stream` |
| upload, voting, download | `Wire`, `Upload`, `UploadText`, `Voting`, `Dialogue`, `Download`, `EndToEnd` |
| metadata and failover | `Metadata`, `MetadataText`, `MetadataStore`, `MetadataRuns`, `MetadataCases`, `Cluster`, `Failover`, `FailoverRun` |
| configuration | `ConfigParser`, `ConfigSteps`, `ConfigLoader`, `ConfigRoundTrip`, `ConfigLookup`, `ConfigTermination` |
| concurrency | `Reactor`, `Framing`, `ThreadPool`, `ChunkStorage`, `ChunkStorageRuns` |
| coordination | `ZkStore`, `LeaderElection`, `HealthMonitor`, `HealthCallbacks`, `Placement` |
| shared vocabulary | `Basics`, `Text`, `Lex` |

`Sha256Spec` is written from FIPS 180-4, independently of the code: recursive schedule and
rounds, and padding of the whole message at once. `Sha256Constants` derives the constants
from primes, as sections 4.2.2 and 5.3.3 define them, and `Sha256Example` proves the digest
that is published for the message "abc", round by round.

Some expected properties do not hold of the code as it stands. The model keeps the code,
shows each failure at an input or a run, and proves when the property holds:

- A winning hash that contains line breaks can replace the file hash of a download
  (`ParsesBackIff`, `FileHashArrives`; `ReportWithLines`).
- Loading a configuration need not terminate (`NoBudgetIff`; `ShortestEndless`,
  `NeverLoaded`).
- A restart changes records without a checksum and file counts that are not positive
  (`RestartIsIdentity`; `RestartChangesCount`, `EmptyChecksumIsLost`).
- A failover plan that is committed after its records have changed can place two replicas on
  one server (`CommitIff`, `RunStaysGoodIff`; `StaleCommit`).
- Health callbacks are made after the lock is released, so they can come in the wrong order
  (`CallsAlternateIff`; `LateUnhealthyCall`). The decisions behind them never do.
- The ZooKeeper store confuses `//b` with `/b` (`CreateKeepsTree`; `DoubledRootBreaksIndex`).
- A heartbeat of two to the thirty-one bytes or more is not delivered, because its size is
  handed to the parser as a signed number (`DeliveredIffShort`; `FirstLostSize`).
- When the kernel refuses an `epoll_ctl` call, the reactor's masks can go stale and a waiter
  can get lost (`RefusedRegistration`, `RefusedHandOut`; `RefusedFirst`, `RefusedReader`).
- An upload is reported successful when any replica of any chunk was stored, so the round
  trip in `UploadThenDownload` asks for answering replicas of every chunk.

The documentation speaks of read repair during download. The download code performs none,
and neither does the model.

## Model

| member | source | states |
|---|---|---|
| `Sha256Stream.DigestOfPieces` | src/common/include/dfg/sha256.hpp:17-65 | for every way of cutting a message into updates, with a digest taken after each, every digest is the one-shot SHA-256 of the concatenation so far |
| `Sha256Stream.Sha256.Update` | src/common/include/dfg/sha256.hpp:17-49 | the absorbed message grows by exactly the input, through the partial-block, whole-block and tail cases |
| `Sha256Stream.Sha256.AbsorbBlocks` | src/common/include/dfg/sha256.hpp:37-42 | the whole-block loop consumes all complete blocks and leaves fewer than 64 bytes |
| `Sha256Stream.Sha256.Digest` | src/common/include/dfg/sha256.hpp:62-65 | the digest is the one-shot hash of everything absorbed, and the object is not changed |
| `Sha256Stream.Sha256.Copy` | src/common/include/dfg/sha256.hpp:62-65 | a copy stands for the same message in storage of its own |
| `Sha256Stream.Sha256.constructor` | src/common/include/dfg/sha256.hpp:15 | a new object stands for the empty message |
| `Sha256Stream.Sha256.Reset` | src/common/include/dfg/sha256.hpp:67-74 | a reset object stands for the empty message |
| `Sha256Stream.Sha256.Transform` | src/common/include/dfg/sha256.hpp:110-133 | one in-place application is the compression function of section 6.2.2 of FIPS 180-4 |
| `Sha256Stream.ScheduleOf` | src/common/include/dfg/sha256.hpp:113-119 | the 64 words are the recursive message schedule |
| `Sha256Stream.MixBlock` | src/common/include/dfg/sha256.hpp:121-129 | the loop over the working variables is 64 rounds of the standard |
| `Sha256Stream.RotrIsRotation` | src/common/include/dfg/sha256.hpp:94-97 | the shift-and-or form is a rotation for every distance used |
| `Sha256Stream.Upper0` | src/common/include/dfg/sha256.hpp:103 | equals the first upper-case sigma of section 4.1.2 |
| `Sha256Stream.Upper1` | src/common/include/dfg/sha256.hpp:104 | equals the second upper-case sigma |
| `Sha256Stream.Lower0` | src/common/include/dfg/sha256.hpp:107 | equals the first lower-case sigma |
| `Sha256Stream.Lower1` | src/common/include/dfg/sha256.hpp:108 | equals the second lower-case sigma |
| `Sha256Stream.Sha256.Terminate` | src/common/include/dfg/sha256.hpp:139-146 | the pending bytes are followed by 0x80 and zeros up to the chosen end |
| `Sha256Stream.Sha256.PutLength` | src/common/include/dfg/sha256.hpp:150-157 | the last eight bytes of the block are the bit length, most significant first |
| `Sha256Stream.Sha256.Finalize` | src/common/include/dfg/sha256.hpp:135-177 | both padding branches give the one-shot hash of the message |
| `Sha256Stream.PadShort` | src/common/include/dfg/sha256.hpp:139-141 | a tail below 56 bytes shares its block with the length, exactly as the whole-message padding says |
| `Sha256Stream.PadLong` | src/common/include/dfg/sha256.hpp:142-147 | a longer tail pushes the length into one more block, exactly as the whole-message padding says |
| `Sha256Stream.Sha256.PrintState` | src/common/include/dfg/sha256.hpp:160-176 | the digest text is the eight words in order, in lower-case hexadecimal |
| `Sha256Stream.PrintBytes` | src/common/include/dfg/sha256.hpp:171-176 | two digits to a byte, in order |
| `Sha256Stream.HashOf` | src/common/include/dfg/sha256.hpp:180-190 | one update and one digest give the one-shot hash |
| `Sha256Spec.PaddingIsStandard` | src/common/include/dfg/sha256.hpp:135-158 | section 5.1.1: a multiple of 512 bits, with the fewest zeros that make it so, ending in the length |
| `Sha256Spec.HexSha256IsHex` | src/common/include/dfg/sha256.hpp:160-176 | 64 lower-case hexadecimal digits |
| `Sha256Spec.ChoiceAndMajority` | src/common/include/dfg/sha256.hpp:99-100 | at every bit position the first word chooses between the other two, and the majority is set exactly where at least two words are |
| `Sha256Example.AbcDigest` | src/common/include/dfg/sha256.hpp:110-176 | the digest of "abc" is the one published with the standard, so byte order, schedule, rotation distances, wiring of the rounds, constants and output order are the right ones |
| `Sha256Example.AbcHash` | src/common/include/dfg/sha256.hpp:110-133 | the same for the eight hash words |
| `Sha256Example.Next` | src/common/include/dfg/sha256.hpp:124-129 | one round on known variables, used for each of the 64 rows of the example |
| `Sha256Example.NextWord` | src/common/include/dfg/sha256.hpp:118-119 | the schedule recurrence on known words, used for each of its rows |
| `Sha256Constants.CubeRoots` | src/common/include/dfg/sha256.hpp:82-91 | section 4.2.2: each round constant is the fraction of the cube root of its prime |
| `Sha256Constants.SquareRoots` | src/common/include/dfg/sha256.hpp:67-74 | section 5.3.3: each initial word is the fraction of the square root of its prime |
| `EndToEnd.UploadThenDownload` | src/client/client.cpp:61-414 | for every file and chunk size, through the text of both dialogues: a successful download has the hash of the uploaded file whatever the replicas return, as long as no winning hash contains a line break; if the original hash of every chunk out-votes every other, counted over the records whose replica answers, those that report it serve it, and no served bytes collide with it, the download is exactly the uploaded bytes; so it is, in particular, when every piece was stored once and the servers are honest |
| `EndToEnd.FavourableOutcome` | src/head_server/head_server.cpp:288-396 | a plan made in a favourable world reaches the client as it was made and reassembles the file; nothing is asked of replicas that report another hash |
| `EndToEnd.HonestIsFavourable` | src/head_server/head_server.cpp:274-396 | such a world exists: when every piece was stored by one of its servers and the recorded servers answer with what they stored, every original hash wins and is served |
| `EndToEnd.WinnersAreSafe` | src/head_server/head_server.cpp:377-396 | with one-line winning hashes the client ends with the committed file hash or with no download |
| `EndToEnd.ReportWithLines` | src/head_server/head_server.cpp:389-392 | a winning report that carries lines of its own makes the client accept other bytes, whatever the head said the file hash is |
| `EndToEnd.PlannedIds` | src/head_server/head_server.cpp:288-373 | the plan of a completely stored file is 0, 1, 2, ... in order |
| `EndToEnd.CommittedRecord` | src/head_server/file_upload.cpp:366-383 | what the store holds after a commit is the collected records, through the request text |
| `EndToEnd.ServeDownload` | src/head_server/head_server.cpp:274-396 | the reply text for the queried record: an error for an unknown file, an empty file, the first chunk without an answer, or the plan |
| `Upload.SplitCovers` | src/client/client.cpp:351-396 | the pieces concatenate to the file, and only the last may be short |
| `Upload.SplitCount` | src/client/client.cpp:287-291 | the announced number of chunks is the number of pieces |
| `Upload.SendFile` | src/client/client.cpp:351-401 | the send loop writes a header and the bytes of every piece, then the end marker |
| `Upload.SendOne` | src/client/client.cpp:371-393 | one header line with the digest of the piece, then the piece |
| `Upload.HashFile` | src/client/client.cpp:275-284 | the buffered first pass computes the digest of the whole file, for every buffer size |
| `Upload.OrderParses` | src/head_server/file_upload.cpp:392-415 | the request line parses back to name, size, count and hash |
| `Upload.HeaderParses` | src/head_server/file_upload.cpp:457-466 | a header the client writes announces exactly its chunk |
| `Upload.SentIsReceived` | src/head_server/file_upload.cpp:451-503 | what the client sends is received as the same numbered chunks |
| `Upload.ReceivedAreFrames` | src/head_server/file_upload.cpp:451-503 | for every byte stream: accepted chunks are consecutive frames of it, each with the digest its header announced, and fewer than asked only before an end marker |
| `Upload.FramesAreReceived` | src/head_server/file_upload.cpp:451-503 | the converse: announced frames are accepted, as many as asked for or fewer before an end marker |
| `Upload.ReadSizeIs` | src/head_server/file_upload.cpp:392-415 | sizes are 64-bit: a minus sign wraps around, and anything out of range is refused |
| `Upload.OldOrderParses` | src/head_server/file_upload.cpp:392-415 | the older request line parses back, with the number of chunks computed from the size |
| `Upload.UploadFormats` | src/client/client.cpp:287-393 | request line and header line, written out |
| `Upload.ReceiveChunks` | src/head_server/file_upload.cpp:446-503 | the receive loop with its running hasher computes acceptance, the transfers and the digest of all accepted bytes |
| `Upload.SubmitTransfers` | src/head_server/file_upload.cpp:305-330 | one transfer for each selected server, with the digest of the chunk |
| `Upload.HandleClientUpload` | src/head_server/file_upload.cpp:389-528 | the store changes only on a commit, and the disk with it; every abort leaves both as they were |
| `Upload.CommitIsVerified` | src/head_server/file_upload.cpp:424-523 | whatever arrives, a commit of a non-empty file means: the committed hash is that of the received bytes and the declared one, every record is that of a received chunk that its server stored, with the digest and the path, and every selected server that stored a chunk has a record of it |
| `Upload.CommitIff` | src/head_server/file_upload.cpp:424-523 | an upload is committed if and only if its request parses and the file is empty, or the chunks arrive, have the declared digest and one of them was stored |
| `Upload.TransferAt` | src/head_server/file_upload.cpp:305-330 | every received chunk is sent to every server selected for it, in order: the transfer of chunk k to its i-th server stands behind those of all earlier chunks |
| `Upload.TransferCount` | src/head_server/file_upload.cpp:305-330 | there are as many transfers as selected servers, summed over the chunks |
| `Upload.StoredIsRecorded` | src/head_server/file_upload.cpp:332-364 | every selected server that stored a chunk has a record with id, digest and path |
| `Upload.RecordIsStored` | src/head_server/file_upload.cpp:332-364 | every record is that of a received chunk that its server stored |
| `Upload.ClientUploadVerdict` | src/head_server/file_upload.cpp:389-528 | a client that follows the protocol is committed unless no replica of a non-empty file was stored |
| `Upload.TransferOrigin` | src/head_server/file_upload.cpp:305-330 | every transfer is that of one received chunk to one of the servers selected for it |
| `UploadText.CollectTransfers` | src/head_server/file_upload.cpp:332-364 | the two loops compute the records of the successful transfers |
| `UploadText.CollectedFrom` | src/head_server/file_upload.cpp:348-360 | every record stands for one successful transfer and counts the successes of its chunk |
| `UploadText.CollectedInOrder` | src/head_server/file_upload.cpp:348-360 | every successful transfer has its record, and records keep the order of the transfers |
| `UploadText.CollectedIsExact` | src/head_server/file_upload.cpp:343-357 | each count is the number of records of that chunk |
| `UploadText.CollectedIsDistinct` | src/head_server/file_upload.cpp:348-360 | transfers that place chunks apart give records that do |
| `UploadText.RequestRoundTrip` | src/head_server/file_upload.cpp:366-383 | the text request parses back to exactly the records that were collected |
| `Wire.ReadLineIs` | src/head_server/file_upload.cpp:433-441 | reading a line off the stream stops right behind its newline |
| `Voting.MajorityWins` | src/head_server/head_server.cpp:356-363 | a hash that out-votes every other, or has a strict majority, is the winner |
| `Voting.WinnerIsUnique` | src/head_server/head_server.cpp:356-363 | greatest count and smallest hash on ties determine one winner |
| `Voting.CountVotes` | src/head_server/head_server.cpp:331-340 | counts and reporters of every hash |
| `Voting.PickHash` | src/head_server/head_server.cpp:356-363 | the scan over the ordered map finds that winner |
| `Voting.PickServer` | src/head_server/head_server.cpp:364-372 | no reporter is better by connections, then load |
| `Voting.Decide` | src/head_server/head_server.cpp:350-372 | the fetch names the winning hash and a best location that reported it |
| `Voting.GatherReplies` | src/head_server/head_server.cpp:306-340 | the answers of the replicas of one chunk under their recorded locations, without the failed ones |
| `Voting.VotesAreVoters` | src/head_server/head_server.cpp:331-335 | a hash has as many votes as there are records of the chunk whose replica reports it |
| `Voting.RepliesInOrder` | src/head_server/head_server.cpp:331-340 | the replies are the answers of the recorded replicas, every one of them, in the order of the records |
| `Voting.DecisionIsGood` | src/head_server/head_server.cpp:350-372 | the decision on the replies is the election over the records |
| `Voting.ElectedIsUnique` | src/head_server/head_server.cpp:356-363 | there is one elected hash, and a hash that out-votes every other is it |
| `Voting.MajorityElected` | src/head_server/head_server.cpp:356-363 | a hash reported by more than half of the answering replicas is elected |
| `Voting.MakePlan` | src/head_server/head_server.cpp:288-373 | every chunk id once in ascending order: the elected hash is the one reported by most of the recorded replicas, the smallest among equals, fetched from a holder that reported it with the fewest connections, then the lowest load; or no plan exactly when no replica of some chunk answers, and then the first such chunk |
| `Voting.PlacedIsHeld` | src/head_server/head_server.cpp:314-338 | the planned server holds a record of the chunk |
| `Dialogue.ParsesBackIff` | src/client/client.cpp:107-137 | the reply reaches the client as the same file hash and plan if and only if every winning hash is a token |
| `Dialogue.OneLineReplies` | src/client/client.cpp:107-137 | with one-line hashes the client reads the file hash and the first word of each chunk hash, or nothing when a hash has no word |
| `Dialogue.FileHashArrives` | src/client/client.cpp:119-121 | with one-line hashes no other file hash can arrive |
| `Dialogue.EmbeddedHashArrives` | src/client/client.cpp:107-137 | a chunk hash that contains a file hash line and an end line replaces the file hash |
| `Dialogue.OtherAnswers` | src/client/client.cpp:107-137 | an empty file is read as one, and every error reply ends the download |
| `Dialogue.LocParses` | src/client/client.cpp:124-131 | a location line reads back up to the first word of its hash |
| `Dialogue.SendPlan` | src/head_server/head_server.cpp:375-395 | the reply text, with the public port of each planned server |
| `Dialogue.FindPort` | src/head_server/head_server.cpp:379-385 | the public port of the first registered server with that address, or 8080 |
| `Dialogue.PortIs` | src/head_server/head_server.cpp:379-385 | the first registered server with the address decides the port, and without one it is 8080 |
| `Cluster.HostIs` | src/head_server/head_server.cpp:387 | the host of an address is what stands before its port |
| `Placement.HostOfAddress` | src/head_server/head_server.cpp:387 | the host sent to clients is the registered one if and only if it has no colon |
| `Dialogue.ReceiveAnswer` | src/client/client.cpp:88-138 | the line loop computes the reading of the reply |
| `Download.FetchAll` | src/client/client.cpp:140-228 | for every order in which the threads finish: an error exactly when some chunk did not match, otherwise every chunk under its id |
| `Download.DownloadFile` | src/client/client.cpp:230-258 | success means that every chunk matched its planned hash and the output has the file hash |
| `Download.RunDownload` | src/client/client.cpp:83-258 | from the dialogue to the output: success means that every chunk read matched its hash, and so did the whole |
| `MetadataText.LoadOfDump` | src/head_server/redis_handler.hpp:64-150 | for every store the text can carry and every order of files, exactly what is read back |
| `MetadataText.RestartIsIdentity` | src/head_server/redis_handler.hpp:64-150 | a restart gives the store back if and only if counts are exact, no checksum is empty and the file count is one that is written |
| `MetadataText.DurableIffReread` | src/head_server/redis_handler.hpp:91-117 | record by record, the same condition |
| `MetadataText.LineFormats` | src/head_server/redis_handler.hpp:132-150 | the lines of a file, written out |
| `MetadataStore.LoadFromDisk` | src/head_server/redis_handler.hpp:64-120 | the line loop and the consistency pass compute the specified store |
| `MetadataStore.NormalizeRecord` | src/head_server/redis_handler.hpp:103-117 | the consistency pass recounts every record |
| `MetadataStore.Tally` | src/head_server/redis_handler.hpp:105-108 | counts of every chunk id |
| `MetadataStore.FirstOf` | src/head_server/redis_handler.hpp:114-116 | the count of the smallest chunk id |
| `MetadataStore.RecountRecords` | src/head_server/redis_handler.hpp:109-113 | every count becomes the number of records of its chunk |
| `MetadataStore.FillRecords` | src/head_server/redis_handler.hpp:158-166 | only counts that are not positive are filled in |
| `MetadataStore.FileText` | src/head_server/redis_handler.hpp:138-149 | the lines of one file |
| `MetadataStore.Store.PersistLocked` | src/head_server/redis_handler.hpp:132-150 | the disk holds a dump of the store in some order |
| `MetadataStore.Store.constructor` | src/head_server/redis_handler.hpp:122-125 | the store starts as what the disk says |
| `MetadataStore.Store.ReplaceFileChunks` | src/head_server/redis_handler.hpp:152-173 | the record of the file is replaced, and the disk follows |
| `MetadataStore.Store.RemoveFile` | src/head_server/redis_handler.hpp:183-187 | the file is gone from store and disk |
| `MetadataStore.Store.AtomicReplaceServerChunks` | src/head_server/redis_handler.hpp:199-233 | the server is replaced in every updated file, and the disk follows |
| `MetadataStore.Store.DeleteServerMetadata` | src/head_server/redis_handler.hpp:235-251 | no record names the server, counts are exact again, and the disk follows |
| `MetadataStore.Store.CreateEntry` | src/head_server/redis_handler.hpp:397-453 | the parsed request replaces the record of its file |
| `MetadataStore.ReadRequest` | src/head_server/redis_handler.hpp:397-449 | the parser with its optional header lines |
| `MetadataStore.ReadChunkLines` | src/head_server/redis_handler.hpp:425-436 | the chunk lines of a request |
| `MetadataStore.SwapRecord` | src/head_server/redis_handler.hpp:204-230 | one file: drop the server, append the new records, recount |
| `MetadataStore.ShrinkRecord` | src/head_server/redis_handler.hpp:237-249 | one file: drop the server, recount |
| `MetadataStore.RemoveServer` | src/head_server/redis_handler.hpp:210-213 | the records of all other servers, in order |
| `MetadataStore.FilledTwice` | src/head_server/redis_handler.hpp:438-451 | filling counts before and inside the replacement is the same as once |
| `Metadata.RecountIsExact` | src/head_server/redis_handler.hpp:103-117 | recounting makes every count exact |
| `Metadata.CountIsSize` | src/head_server/redis_handler.hpp:103-117 | the count of a chunk is the number of indices at which it is recorded |
| `Metadata.FilledIs` | src/head_server/redis_handler.hpp:158-166 | filling keeps positive counts and gives the others the true number of records |
| `Metadata.WithoutInOrder` | src/head_server/redis_handler.hpp:210-213 | the records of all other servers stay, each of them, in order |
| `Metadata.CountWithout` | src/head_server/redis_handler.hpp:235-251 | with distinct placement, dropping a server costs each chunk it held exactly one replica |
| `Metadata.ReplacedIsGood` | src/head_server/redis_handler.hpp:152-173 | a replacement keeps counts and placement, and stores the records unchanged |
| `Metadata.DeleteServerIsGood` | src/head_server/redis_handler.hpp:235-251 | a deletion keeps counts exact and placement distinct |
| `MetadataRuns.RunKeepsInvariants` | src/head_server/redis_handler.hpp:64-251 | over every run of uploads with distinct chunk ids, failovers step by step, deletions, removals and restarts, in which no commit comes too late: each count is the number of records of its chunk, and no chunk has two records on one server |
| `MetadataRuns.StepIsSound` | src/head_server/redis_handler.hpp:103-251 | every single event keeps that |
| `MetadataRuns.UploadIsSound` | src/head_server/file_upload.cpp:332-383 | an upload of chunks with distinct ids stores exactly the collected records under the given hash, with the given factor as count or, when that is not positive, the count of the smallest chunk |
| `MetadataRuns.TransfersAreDistinct` | src/head_server/file_upload.cpp:305-330 | distinct chunk ids and selections without repetition send no chunk to a server twice |
| `MetadataRuns.PlacementSelectsOnce` | src/head_server/file_upload.cpp:311-314 | selections from registered servers are without repetition |
| `MetadataRuns.RunStaysGoodIff` | src/head_server/redis_handler.hpp:199-251 | a run stays good at its next step if and only if that step is no late commit |
| `MetadataRuns.CommitIff` | src/head_server/redis_handler.hpp:199-251 | a commit leaves a good store if and only if no planned server has meanwhile received the chunk planned for it |
| `MetadataRuns.AdditionsAreSound` | src/head_server/head_server.cpp:842-927 | whatever is planned for a file can be written and adds one record to a chunk at most |
| `MetadataCases.StaleCommit` | src/head_server/head_server.cpp:842-941 | upload, plan, upload onto the planned server, commit: two records of a chunk on one server |
| `MetadataCases.RestartChangesCount` | src/head_server/redis_handler.hpp:142-144 | an empty file stored under a negative factor comes back with count zero |
| `MetadataCases.EmptyChecksumIsLost` | src/head_server/redis_handler.hpp:145-148 | a record without a checksum does not come back |
| `MetadataRuns.FailoverIsSound` | src/head_server/head_server.cpp:796-947 | a failover that nothing interrupts is a plan committed in time |
| `MetadataRuns.DeletionIsSound` | src/head_server/redis_handler.hpp:235-251 | so does a deletion |
| `MetadataRuns.RestartLosesNothing` | src/head_server/redis_handler.hpp:64-150 | a restart brings back every file with its hash and records |
| `MetadataRuns.RestartIsSound` | src/head_server/redis_handler.hpp:64-120 | a restart keeps the invariants |
| `Failover.FailoverConserves` | src/head_server/head_server.cpp:796-947 | unless no healthy target exists: no record names the dead server, every surviving record is kept, every other record is a repair with its path and checksum, every repair is there, a chunk count is unchanged exactly when the chunk was unaffected or copied, and the count of a file becomes that of its smallest chunk exactly when something was repaired; both store invariants survive |
| `Failover.RepairIs` | src/head_server/head_server.cpp:853-925 | the record a repair adds, if and only if: its server is the first healthy one without the chunk, its path is what the copy from the first survivor reported, or the default one when that is empty, and its checksum is that of the last lost replica |
| `Failover.RepairTarget` | src/head_server/head_server.cpp:880-925 | a repair goes to a healthy server that did not hold the chunk, with the checksum of a lost replica |
| `Failover.RepairIffCopied` | src/head_server/head_server.cpp:853-925 | a repair is made if and only if the chunk is on the dead server, another record survives, some healthy server does not hold the chunk, and copying from the first survivor to the first such server succeeds |
| `Failover.AdditionsAre` | src/head_server/head_server.cpp:842-927 | the additions are the successful repairs, one for each chunk at most |
| `Failover.FileAfterFailover` | src/head_server/head_server.cpp:929-941 | a file ends as its surviving records and the repairs, recounted, and with its own count recounted exactly when a chunk was copied |
| `Failover.PlacementOfUnion` | src/head_server/redis_handler.hpp:208-218 | adding records keeps placements apart if and only if none repeats a placement |
| `Failover.LateCommit` | src/head_server/redis_handler.hpp:199-233 | a plan committed to records that changed meanwhile keeps them sound if and only if no planned server has received that chunk |
| `FailoverRun.Rereplicate` | src/head_server/head_server.cpp:796-947 | the procedure, from target search to the final deletion, leaves the specified store and its dump on disk |
| `FailoverRun.RepairFile` | src/head_server/head_server.cpp:842-927 | all chunks of a file in ascending order |
| `FailoverRun.RepairChunk` | src/head_server/head_server.cpp:853-925 | one chunk: scan, target, copy, record |
| `FailoverRun.ScanRecords` | src/head_server/head_server.cpp:854-867 | last dead checksum and first survivor |
| `FailoverRun.PickTarget` | src/head_server/head_server.cpp:880-894 | first healthy server without the chunk |
| `FailoverRun.GroupById` | src/head_server/head_server.cpp:847-851 | records grouped by chunk id |
| `Cluster.FindTargets` | src/head_server/head_server.cpp:808-828 | registered servers other than the dead one with no unhealthy report |
| `Cluster.TargetsInOrder` | src/head_server/head_server.cpp:808-828 | the targets are exactly those addresses, in the order of the registry |
| `ConfigRoundTrip.ConfigReadsBack` | src/common/include/dfg/config_loader.hpp:321-460 | for every legal tree, every layout of blanks and comments behind scalars, reading terminates right behind the tree and stores its dotted-key flattening, without the comments of members and with those of elements |
| `ConfigRoundTrip.ValueReads` | src/common/include/dfg/config_loader.hpp:371-460 | a nested value consumes exactly its own text |
| `ConfigRoundTrip.MembersRead` | src/common/include/dfg/config_loader.hpp:371-423 | an object stores its members and consumes up to its closing brace |
| `ConfigRoundTrip.ItemsRead` | src/common/include/dfg/config_loader.hpp:425-460 | an array stores its elements under their indices |
| `ConfigRoundTrip.QuotedReadsBack` | src/common/include/dfg/config_loader.hpp:342-359 | every string survives escaping and reading |
| `ConfigRoundTrip.ScalarReads` | src/common/include/dfg/config_loader.hpp:361-369 | a scalar token is trimmed and ends at its separator |
| `ConfigRoundTrip.CommentIsCut` | src/common/include/dfg/config_loader.hpp:415-419 | a comment and the blanks before it are cut off a member value, and a value without one is left alone |
| `ConfigLookup.ConfigLookup` | src/common/include/dfg/config_loader.hpp:371-460 | looking up a dotted path finds the leaf it leads to in the tree, and nothing when there is none |
| `ConfigTermination.EndlessIff` | src/common/include/dfg/config_loader.hpp:425-460 | for every text, the reader says there is no end if and only if a scan with a bracket stack meets a closing brace inside an array |
| `ConfigTermination.ShortestEndless` | src/common/include/dfg/config_loader.hpp:371-460 | the object text of six characters with one key, an open array and a closing brace is never finished, and no shorter configuration is |
| `ConfigTermination.NoBudgetIff` | src/common/include/dfg/config_loader.hpp:321-460 | the loops exhaust every number of steps if and only if a scan with a bracket stack meets a closing brace inside an array; otherwise they end within the length of the text |
| `ConfigSteps.EndlessMeansNoBudget` | src/common/include/dfg/config_loader.hpp:321-460 | the reader says there is no end if and only if no number of steps is enough, and otherwise gives the result of the loops |
| `ConfigSteps.BraceNeverEnds` | src/common/include/dfg/config_loader.hpp:432-459 | an array loop at a closing brace stores an empty element and stays where it is, forever |
| `ConfigSteps.StuckAtBrace` | src/common/include/dfg/config_loader.hpp:361-369 | the scalar token at a closing brace is empty and consumes nothing |
| `ConfigTermination.NeverLoaded` | src/common/include/dfg/config_loader.hpp:258-288 | the loader does not get past that text in any number of steps |
| `ConfigLoader.Loader.LoadText` | src/common/include/dfg/config_loader.hpp:258-288 | text that is not an object changes nothing; otherwise the map is what the reader stores, within as many steps as the text is long, or no number of steps is enough |
| `ConfigLoader.Loader.ParseObject` | src/common/include/dfg/config_loader.hpp:371-423 | the position-advancing loop, one step of the budget for each iteration |
| `ConfigLoader.Loader.ParseMember` | src/common/include/dfg/config_loader.hpp:402-421 | one member value, comment stripping included |
| `ConfigLoader.Loader.ParseArray` | src/common/include/dfg/config_loader.hpp:425-460 | the same for arrays, with no case for a closing brace |
| `ConfigLoader.Loader.ParseItem` | src/common/include/dfg/config_loader.hpp:445-457 | one element |
| `ConfigLoader.SkipWs` | src/common/include/dfg/config_loader.hpp:336-340 | stops at the first character that is not blank |
| `ConfigLoader.ParseStringToken` | src/common/include/dfg/config_loader.hpp:342-359 | quoted string with escapes, or nothing |
| `ConfigLoader.ParseValueToken` | src/common/include/dfg/config_loader.hpp:361-369 | trimmed scalar |
| `Reactor.EveryRun` | src/common/include/dfg/async_net.hpp:187-242 | in every reachable state the kernel watches exactly the directions somebody waits for, no entry is idle, and waiters of each direction have been handed out once each in registration order, except those still in the table |
| `Reactor.StepIsConsistent` | src/common/include/dfg/async_net.hpp:187-242 | every registration and every hand-out keeps mask, table and kernel in agreement |
| `Reactor.RunConserves` | src/common/include/dfg/async_net.hpp:201-242 | from any state: waiting plus registered is handed out plus still waiting, in order |
| `Reactor.KernelAgrees` | src/common/include/dfg/async_net.hpp:187-199 | an add never meets a watched descriptor, a modify never an unwatched one |
| `Reactor.RefusedRegistration` | src/common/include/dfg/async_net.hpp:187-211 | a refused kernel call leaves the table consistent if and only if each of its directions already had a waiter |
| `Reactor.RefusedHandOut` | src/common/include/dfg/async_net.hpp:213-242 | a refusal while handing out does harm if and only if one direction empties and the other does not |
| `Reactor.RefusedFirst` | src/common/include/dfg/async_net.hpp:187-211 | the first registration, refused |
| `Reactor.RefusedReader` | src/common/include/dfg/async_net.hpp:213-242 | a reader that is neither in the table nor with the loop |
| `Reactor.EventLoop.CtlAddOrMod` | src/common/include/dfg/async_net.hpp:187-199 | add or modify by the recorded mask, failing as the kernel does or when it refuses |
| `Reactor.EventLoop.AddWaiter` | src/common/include/dfg/async_net.hpp:201-211 | one registration step; it throws exactly when the kernel refuses, and then the waiter is queued under the old masks |
| `Reactor.EventLoop.TakeWaiters` | src/common/include/dfg/async_net.hpp:213-242 | one hand-out step; it throws exactly when the kernel refuses to narrow the interest, and then the waiters taken are lost |
| `Reactor.EventLoop.Settle` | src/common/include/dfg/async_net.hpp:228-241 | the interest is narrowed, dropped or left alone |
| `Reactor.EventLoop.Dispatch` | src/common/include/dfg/async_net.hpp:263-284 | an error event resumes both sides, readers first; otherwise first the readers waiting, then the writers waiting, and nobody on a side that is not ready |
| `Reactor.EventLoop.Run` | src/common/include/dfg/async_net.hpp:253-286 | the loop over any events and any behaviour of the resumed coroutines loses, repeats and overtakes no waiter |
| `ZkStore.RunRefinesPlain` | src/common/src/zookeeper_client.cpp:133-243 | over every run that creates no doubled root, the store stays prefix-closed with exact children sets, and contents and replies are those of a plain map from paths to data, flag and version |
| `ZkStore.EveryRunIsTree` | src/common/src/zookeeper_client.cpp:22-29 | the same for every run from the initial store |
| `ZkStore.StepRefinesPlain` | src/common/src/zookeeper_client.cpp:133-243 | the same for one operation |
| `ZkStore.ReadsLastSet` | src/common/src/zookeeper_client.cpp:213-243 | until it is deleted, a path reads as the last data set on it, its version has grown by the number of sets, and nothing else touches it |
| `ZkStore.CreatedReads` | src/common/src/zookeeper_client.cpp:133-176 | a successful create stores its data at version zero where nothing was |
| `ZkStore.CreateKeepsTree` | src/common/src/zookeeper_client.cpp:133-176 | a successful create keeps the tree if and only if its path is not a single name after two slashes |
| `ZkStore.DeleteKeepsTree` | src/common/src/zookeeper_client.cpp:178-205 | a delete keeps the tree |
| `ZkStore.ChildlessIffLeaf` | src/common/src/zookeeper_client.cpp:191-193 | the children set is empty if and only if nothing is stored below at any depth |
| `ZkStore.DoubledRootBreaksIndex` | src/common/src/zookeeper_client.cpp:56-73 | creating `/b` and `//b` and deleting the second leaves a node its parent does not list |
| `ZkStore.PartsJoin` | src/common/src/zookeeper_client.cpp:56-73 | splitting and joining a path is the identity if and only if it is not a doubled root |
| `ZkStore.JoinParts` | src/common/src/zookeeper_client.cpp:56-73 | joining and splitting is the identity |
| `ZkStore.NormalizeIsNormal` | src/common/src/zookeeper_client.cpp:41-54 | normal paths are exactly the fixed points, and other paths lose the slashes at their end |
| `ZkStore.NormalizePath` | src/common/src/zookeeper_client.cpp:41-54 | the loop computes the normal form |
| `ZkStore.SequentialNamesDiffer` | src/common/src/zookeeper_client.cpp:146-151 | two sequential creates at one path never aim at the same node, whatever happens in between |
| `ZkStore.NumberedInjective` | src/common/src/zookeeper_client.cpp:146-151 | different counters give different names |
| `ZkStore.CountersCount` | src/common/src/zookeeper_client.cpp:146-151 | sequence numbers count the sequential creates at their path, successful or not |
| `ZkStore.PaddedIs` | src/common/src/zookeeper_client.cpp:146-151 | ten digits or more, with the value of the counter |
| `ZkStore.Client.CreateNode` | src/common/src/zookeeper_client.cpp:133-176 | create and sequential create, with every error reply |
| `ZkStore.Client.DeleteNode` | src/common/src/zookeeper_client.cpp:178-205 | delete, with every error reply |
| `ZkStore.Client.SetNodeData` | src/common/src/zookeeper_client.cpp:224-243 | set, with a version step |
| `ZkStore.Client.GetNodeData` | src/common/src/zookeeper_client.cpp:213-222 | the data under the path, or nothing |
| `ZkStore.Client.GetChildren` | src/common/src/zookeeper_client.cpp:245-260 | every name stored directly below the path, in order |
| `ChunkStorage.EveryRetrieveIsWhole` | src/cluster_server/chunk_service.cpp:132-256 | under every interleaving of stores, retrieves, deletes, failures and restarts, a retrieve answers with nothing or with all bytes of one finished store of its id |
| `ChunkStorageRuns.StoreIsFound` | src/cluster_server/chunk_service.cpp:132-191 | over every run: a retrieve of an id fetches the path of the store that finished last, unless the id was deleted or the process restarted since |
| `ChunkStorageRuns.StoreIsRead` | src/cluster_server/chunk_service.cpp:132-228 | and if it ends its reading, it answers with exactly the bytes of that store, whatever other threads do meanwhile |
| `ChunkStorageRuns.StoreIsServed` | src/cluster_server/chunk_service.cpp:176-228 | and as long as the id is not deleted it does not answer with nothing, but goes on until it ends its reading or fails |
| `ChunkStorageRuns.StoreIsRegistered` | src/cluster_server/chunk_service.cpp:132-165 | a store that finishes leads its id to its path, which holds its bytes |
| `ChunkStorageRuns.DeletedIsGone` | src/cluster_server/chunk_service.cpp:176-191 | after a delete or a restart, and before another store of the id finishes, a retrieve answers with nothing exactly when no file exists under its fallback path |
| `ChunkStorageRuns.FallbackIsFound` | src/cluster_server/chunk_service.cpp:183-185 | a file found under a fallback path is fetched by later retrieves of the id too |
| `ChunkStorageRuns.DeletedIsRemoved` | src/cluster_server/chunk_service.cpp:230-248 | a delete removes the file of the store that finished last, and no file exists under that path again |
| `ChunkStorageRuns.RoundTripRun` | src/cluster_server/chunk_service.cpp:132-228 | from every start there is a run that stores any given bytes and reads them back |
| `ChunkStorage.StepKeeps` | src/cluster_server/chunk_service.cpp:132-256 | every step keeps registry, files and threads consistent |
| `ChunkStorage.ReadIsComplete` | src/cluster_server/chunk_service.cpp:193-228 | a read that ends has read exactly the bytes of the store whose path it fetched |
| `ChunkStorage.RegisterKeeps` | src/cluster_server/chunk_service.cpp:159-165 | registration after closing makes only complete files visible |
| `ChunkStorage.OpenForWriteCreates` | src/cluster_server/chunk_service.cpp:139-144 | opening for write creates a file and never truncates one |
| `ChunkStorage.PathIsFresh` | src/cluster_server/chunk_service.cpp:106-116 | a generated path was never issued before |
| `ChunkStorage.PathDeterminesStamp` | src/cluster_server/chunk_service.cpp:106-116 | a path determines its time and sequence number |
| `ChunkStorage.ChunkKeyInjective` | src/head_server/file_upload.cpp:181-182 | distinct pairs of file and chunk number never share a storage key, whatever the names contain |
| `Framing.DeliveredIffShort` | src/common/include/dfg/async_net.hpp:345-428 | the receiver delivers exactly what was sent if and only if every payload is shorter than two to the thirty-one bytes |
| `Framing.FirstLostSize` | src/common/include/dfg/async_net.hpp:345-428 | a payload of exactly that size is lost |
| `Framing.CutStreamDeliversPrefix` | src/common/include/dfg/async_net.hpp:410-428 | a stream that stops anywhere delivers a prefix of the payloads |
| `Framing.ShortPayloadsArrive` | src/common/include/dfg/async_net.hpp:345-428 | every list of acceptable payloads arrives as sent |
| `Framing.Session` | src/common/include/dfg/async_net.hpp:312-428 | from one end to the other, for every way both kernels cut the stream |
| `Framing.Receiver.ReadExact` | src/common/include/dfg/async_net.hpp:328-343 | fills the buffer with the next bytes, for every fragmentation, or fails when the stream is too short |
| `Framing.Receiver.RecvHeartbeats` | src/common/include/dfg/async_net.hpp:410-428 | the loop delivers the decoding of the stream, for every fragmentation |
| `Framing.Sender.SendAll` | src/common/include/dfg/async_net.hpp:312-326 | all bytes in order, or a prefix on failure |
| `Framing.Sender.SendHeartbeats` | src/common/include/dfg/async_net.hpp:345-408 | the concatenated frames, or a prefix on failure |
| `ThreadPool.EveryRun` | src/common/include/dfg/thread_pool.hpp:26-71 | in every interleaving: jobs start in submission order, each accepted job is queued, running or finished once, nothing is accepted after stop, and when all workers have left every accepted job has run |
| `ThreadPool.StepKeepsSound` | src/common/include/dfg/thread_pool.hpp:26-71 | every step keeps conservation, drained exit and no lost notification |
| `ThreadPool.KeepsAwake` | src/common/include/dfg/thread_pool.hpp:26-71 | while somebody is blocked, each queued job is matched by a coming notification or a worker about to test |
| `ThreadPool.NeverStuck` | src/common/include/dfg/thread_pool.hpp:26-71 | a pool with work, or stopped with workers inside, can always take a step of its own |
| `ThreadPool.StepDecreases` | src/common/include/dfg/thread_pool.hpp:26-71 | each such step decreases a measure |
| `ThreadPool.RunsAreBounded` | src/common/include/dfg/thread_pool.hpp:26-71 | so a pool left to itself comes to rest within a bound known beforehand |
| `ThreadPool.RestMeansDone` | src/common/include/dfg/thread_pool.hpp:26-71 | at rest every accepted job has finished, and a stopped pool has let every worker go |
| `ThreadPool.Shared.Push` | src/common/include/dfg/thread_pool.hpp:43-49 | the critical section of submit |
| `ThreadPool.Shared.Pop` | src/common/include/dfg/thread_pool.hpp:62-68 | the critical section of a worker |
| `LeaderElection.Monitor.Loop` | src/zk_monitor/zk_monitor.cpp:590-640 | over every run of the monitor at most one server is flagged and it is the recorded leader; a readable round leaves exactly the servers it found, and exactly one of them flagged if there are any |
| `LeaderElection.Monitor.Elect` | src/zk_monitor/zk_monitor.cpp:439-588 | a healthy leader is kept; otherwise the usable servers are exactly those that answer or are marked healthy and not just demoted, and the new leader is beaten by no usable server on both CPU and memory and is first by id among equals; without usable servers it has the fewest failures |
| `LeaderElection.Monitor.KeepOrDemote` | src/zk_monitor/zk_monitor.cpp:446-476 | a leader that passes its check changes nothing; one that fails it loses flag and state |
| `LeaderElection.Monitor.BestCandidate` | src/zk_monitor/zk_monitor.cpp:479-497 | the candidate loop |
| `LeaderElection.Monitor.LeastUnhealthyServer` | src/zk_monitor/zk_monitor.cpp:553-561 | the fallback loop |
| `LeaderElection.ClearWinner` | src/zk_monitor/zk_monitor.cpp:486-497 | a usable server that beats all others is the one elected |
| `LeaderElection.Monitor.Discover` | src/zk_monitor/zk_monitor.cpp:381-402 | the table holds the last record under each name, without flags; a record that does not parse ends the pass |
| `LeaderElection.RefilledIs` | src/zk_monitor/zk_monitor.cpp:381-402 | every name with a record is in the table with its last one, and no other name is |
| `LeaderElection.Monitor.Check` | src/zk_monitor/zk_monitor.cpp:243-364 | healthy means recent and marked so, or reachable; a success clears the failure count, and exactly the third failure in a row and later ones mark the server |
| `LeaderElection.Monitor.CheckAll` | src/zk_monitor/zk_monitor.cpp:596-604 | every state becomes the result of its check |
| `LeaderElection.Monitor.FindLeader` | src/zk_monitor/zk_monitor.cpp:446-450 | finds the flagged server |
| `LeaderElection.Monitor.Promote` | src/zk_monitor/zk_monitor.cpp:506-509 | flags one server and records it |
| `HealthMonitor.DecisionsAlternate` | src/common/include/dfg/health_monitor.hpp:55-121 | within a registration the decisions to call back alternate, starting with unhealthy, and the last one says whether the server is down |
| `HealthMonitor.DownIff` | src/common/include/dfg/health_monitor.hpp:91-103 | a server is down if and only if at least one check since its last heartbeat, and as many as the threshold asks for, found that heartbeat stale |
| `HealthMonitor.StaleIff` | src/common/include/dfg/health_monitor.hpp:95-100 | stale means more whole seconds than the timeout, in nanoseconds |
| `HealthCallbacks.CallsAlternateIff` | src/common/include/dfg/health_monitor.hpp:55-121 | over every run of the heartbeat and the check thread, the calls made alternate if and only if no call is made while an older one of that server is still owed |
| `HealthCallbacks.UndisturbedCallsAlternate` | src/common/include/dfg/health_monitor.hpp:55-121 | so they do when nothing is decided for the server between a decision and its call, and then the last call says whether it is down |
| `HealthCallbacks.CallKeepsOrderIff` | src/common/include/dfg/health_monitor.hpp:78-120 | one call keeps the alternation if and only if it is the oldest one owed |
| `HealthCallbacks.LateUnhealthyCall` | src/common/include/dfg/health_monitor.hpp:78-120 | a check marks, a heartbeat calls recovered, the check calls unhealthy: wrong order, and down for a server that is up |
| `HealthMonitor.MissesCountEveryCheck` | src/common/include/dfg/health_monitor.hpp:95-100 | with a clock that never runs backwards, every check after the first stale one counts |
| `HealthMonitor.Monitor.CheckHealth` | src/common/include/dfg/health_monitor.hpp:84-113 | the locked part, for every server: unhealthy is decided at exactly the limit-th stale check since the last heartbeat, in ascending order of ids |
| `HealthMonitor.Monitor.CheckOne` | src/common/include/dfg/health_monitor.hpp:91-112 | one server of the check |
| `HealthMonitor.Monitor.RecordHeartbeat` | src/common/include/dfg/health_monitor.hpp:55-77 | the locked part: recovered is decided exactly when the history says down; an unknown server begins a registration |
| `HealthMonitor.Monitor.RegisterServer` | src/common/include/dfg/health_monitor.hpp:147-160 | begins a registration unless there is one |
| `HealthMonitor.Monitor.DeregisterServer` | src/common/include/dfg/health_monitor.hpp:162-166 | ends a registration |
| `Placement.SelectForChunk` | src/head_server/file_upload.cpp:91-151 | from a non-empty registry, listed by ascending id: as many different candidates as asked for and as there are, all healthy or unknown if any such exist, in order of disk usage, and none passed over for a fuller one |
| `Placement.SelectionIsDistinct` | src/head_server/file_upload.cpp:145-150 | from servers listed once each nobody is selected twice |
| `Placement.SelectServers` | src/head_server/file_upload.cpp:105-150 | the same on a given list of servers |
| `Placement.FilterCandidates` | src/head_server/file_upload.cpp:107-124 | healthy and unknown servers |
| `Placement.CheckCandidate` | src/head_server/file_upload.cpp:112-120 | the flag of the first matching report; healthy without one |
| `Placement.LookUpDisk` | src/head_server/file_upload.cpp:133-139 | the usage in the last matching report; 100 without one |
| `Placement.SortByDisk` | src/head_server/file_upload.cpp:128-141 | a permutation in order of disk usage |
| `Placement.Registry.AddServer` | src/common/include/dfg/server_registry.hpp:39-70 | endpoints stay distinct; a known one changes nothing; with a counter above all ids nothing is overwritten |
| `Placement.Registry.RemoveServer` | src/common/include/dfg/server_registry.hpp:73-90 | only that entry goes |
| `Placement.Registry.SetNextId` | src/common/include/dfg/server_registry.hpp:127 | the counter may move anywhere without disturbing endpoints |
| `Placement.Registry.GetAddresses` | src/common/include/dfg/server_registry.hpp:93-102 | the addresses of the active servers by ascending id, none twice |
| `Placement.AddressInjective` | src/common/include/dfg/server_registry.hpp:28 | an address determines host and port, whatever the host contains |

## Left out

- Socket set-up, accept loops, the HTTP control interface, the web pages and argument parsing: input and output only.
- The Redis backend: it has the interface of the on-disk backend and depends on a client library outside the repository.
- Protobuf encoding: a payload either parses or does not, and is otherwise not interpreted.
- Exporters, dashboards, system sampling, logging and table printing: nothing to prove beyond their text.
- The health checker process: the health monitor's idea with weaker logic.
- ZooKeeper sessions and watches: nodes are only flagged ephemeral, and callbacks are user code.
- The guard against two recoveries of one server at a time, and the emergency messages to a dead server: they would add only easy members.
- Configuration file search, environment overrides and typed getters: operating-system effects and one-line conversions.
- Collision resistance: where bytes are concluded from hashes, the absence of a collision is a hypothesis of the theorem.
- Integer widths: ids, counts, ports and sequence numbers are unbounded, and floating-point loads are real numbers; the widths that matter (64-bit message length, 32-bit frame length, signed parser size) are modelled.
- The exchange with a chunk server during a download: a request for a chunk is one oracle call that gives bytes or nothing.
- Coroutine frames and memory ordering: a coroutine is a handle, and what it waits for next is a parameter; a descriptor closed by its owner while waiters remain is not modelled.
- EndToEnd.UploadThenDownload: asks for a file name and server addresses without white space, and for addresses with a host, because request line, metadata text and download dialogue separate their fields by white space.
- FailoverRun.Rereplicate: the copy of a chunk is a function of its arguments, and the records do not change while the method runs; the runs of `MetadataRuns` take a failover apart and let other events in.
- ChunkStorage.EveryRetrieveIsWhole: fallback paths come from finished stores of the same id, and a process that is not the first one stores only at times later than those in the paths of its predecessors.
- Upload.SendFile: the bytes of a chunk leave in one piece; partial sends are modelled in `Framing` only.
- Voting.PickServer: searches for the best server instead of sorting them all.
- LeaderElection.Monitor.Check: a connection attempt is one answer, so the three retries inside it and the times of checks are not modelled.
- Placement.Registry.AddServer: does not model the change callback and the registration time.
- Reactor.EventLoop.Run: the kernel refuses nothing while the loop runs; what a refusal leaves behind is stated for the single calls.
- HealthCallbacks.CallsAlternateIff: calls that are still owed when a server is deregistered are not followed into its next registration.
- ConfigLoader.Loader.LoadText: does not record the path of the file and the loaded flag.
- Sha256Constants.CubeRoots: takes the table of the first sixty-four primes as given.
- Placement.Registry.RemoveServer: does not model the change callback.
- MetadataStore.Store.PersistLocked: does not model a file that cannot be opened.
