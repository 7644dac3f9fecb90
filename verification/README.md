# PeerWatch: download, storage and synchronisation, verified

PeerWatch lets several people watch one file together. A host hashes its file into a manifest of
fixed-size chunks; joiners fetch the manifest, download chunks from whoever has them, check every
chunk against its SHA-256 digest, play the file from a local store while it is still incomplete, and
follow the host's playback position.

This project models that behaviour in Dafny and proves what it guarantees, over every run and every
interleaving of the modelled steps. `dafny verify dfyconfig.toml` checks everything.

## How the model is organised

| files | what they hold |
|---|---|
| `Bytes`, `Sets`, `Bitfield` | big-endian numbers, finite sets, the chunk bitfield |
| `Wire`, `Layout`, `Stream`, `Codec`, `Framing` | what a message looks like in bytes, field by field; reading a stream that may be cut; the encoders and decoders as loops over buffers; reading a fixed number of items |
| `Chunker`, `Manifests`, `HashPool` | cutting a file into chunks; the manifest and its transport; the worker pool that hashes |
| `Peers`, `Tracker`, `Strategy`, `Joiner`, `Session` | the mutable objects of a joiner: peers, availability index, choice of chunks and peers, swarm and scheduler, message and connection handlers |
| `Engine`, `Runs` | the joiner as a transition system over atomic events, and its runs |
| `Ownership`, `Completion`, `Stalls`, `Loads`, `Holders`, `Requests` | what holds over the runs: who owes which chunk, how fast a download finishes, how it stalls, the peers' loads, who holds what, timeouts and what is sent |
| `Announcements`, `Records` | peer table, bitfields, tracker, stored and urgent chunks read off the events alone |
| `Scenario`, `TickCap` | concrete runs; a tick taken apart into its steps |
| `Store`, `StoreLaws` | the chunk store as an object, one call at a time |
| `StoreProtocol`, `StoreSafety`, `StoreCount`, `Uninterrupted` | the same calls, with the player's reads, interleaved at the level of critical sections and of single file bytes; run without interruption they are the calls of `Store` |
| `Reader`, `ReaderLaws` | the player's seekable reader |
| `Drift` | pause and drift correction |
| `Handshake` | the host's greeting of a joiner, under concurrent replies and broadcasts |
| `EndToEnd` | the pieces together: from the host's file to the bytes the player reads |

Code that updates state in place is modelled by classes and loops. Each such method is proved equal
to a step of a specification function (`Engine.Next` and its parts, `Store.Write`, `Store.ReadRange`,
`Wire.Payload`, `Stream.ReadOne`, `Drift.Handled`, ...), and the theorems are about those functions
and about runs of them.

Assumptions that are part of statements, not of the proofs:

- SHA-256 is an arbitrary function from byte strings to digests. Where stored data must equal the
  original, the statement assumes `NoCollision`: of the data actually delivered for a chunk, only the
  chunk itself has the chunk's digest.
- Times, speeds and drifts are real numbers. Clocks, disk space and the success of player commands
  are parameters.
- In the engine every tick, message, connection and disconnect is one step. A peer ID belongs to one
  connection at a time.

## What does not hold

Some natural expectations are false of the code. Each has a concrete state or run, and the exact or
best statement that does hold.

- A chunk whose piece fails its hash check is never requested again, even if the only holder is idle
  (`Stalls.OneBadPieceStalls`), because the peer's entry is cleared and the scheduler's is not. The
  scheduler's ownerless entries are exactly such chunks (`Ownership.OwnershipOverRuns`). Sixteen of
  them end the download, in a state that is reached (`Stalls.SixteenRejectionsAreReached`); with an
  idle, complete host a tick asks for nothing exactly if there are sixteen or nothing else is
  missing (`Completion.StopsExactly`), and fewer of them slow the rest down to `16 - r` chunks a
  round (`Completion.RejectedBound`).
- The limit of four requests a peer is a test, not an invariant. A tick keeps it exactly if, for
  every peer, the load before it and the candidates the peer is chosen for come to at most four
  (`Loads.LimitKeptExactly`). Never more than nineteen are outstanding (`Loads.LoadBound`), and
  nineteen are reached (`Loads.MaxLoadIsReached`).
- Two overlapping writes of one chunk count it twice. `IsComplete` is then true too early
  (`StoreCount.CompleteTooEarly`) and false once everything is stored (`StoreCount.NeverCompleteAgain`).
  The counter is exact exactly if no two calls for one chunk were ever past their `HasChunk` test
  together (`StoreCount.CountExactly`).
- The chunk count is negative or zero when file size plus chunk size exceeds an int64
  (`Chunker.CountExactly`).
- A read into an empty buffer reports end of file in the middle of the file (`ReaderLaws.OneRead`).
- A network latency above five seconds is taken for a clock error, and the player settles that far
  behind the host (`Drift.SettlesBehind`).
- A host and a joiner that are both paused need not stand at the same position. They do from the
  first pause message on if its commands work (`Drift.PausedTogether`); if its seek fails they keep
  their distance, and no later pause message corrects it (`Drift.PausedApart`,
  `Drift.PausedIsLeftAlone`).

Where the repository's comments and documents differ from its code, the code is modelled:

- `internal/peer/peer.go:99` says that `Send` drops a message when the queue is full; it blocks until
  there is room or the peer is gone.
- `docs/protocol_sequence.md` gives REQUEST 8 + 4N payload bytes and HAVE and CANCEL 8; the encoders
  write 4 + 4N and 4.

## Model

The sources are the files of the repository. "Specified" refers to the function named in the
member's contract.

| member | source | states |
|---|---|---|
| `Ownership.OwnershipOverRuns` | `internal/scheduler/scheduler.go:141-220` | After any run of ticks, pieces (late, duplicate, unsolicited, rejected), connects, disconnects, bitfields and demands: no chunk is in flight at two connected peers; the scheduler's set avoids stored chunks and has at most 16 entries; it contains every missing chunk a peer owes; its entries nobody owes are exactly the chunks whose outstanding piece was rejected and not followed by an accepted one |
| `Ownership.NoOrphansIfAllVerify` | `cmd/join.go:80-99` | If every piece that answers a request is accepted, every entry of the scheduler's in-flight set has a peer that owes it |
| `Ownership.StepKeepsInv` | `internal/peer/swarm.go:488-586` | Each single event keeps the ownership invariant, with the set of rejected chunks updated |
| `Ownership.TickKeepsInv` | `internal/scheduler/scheduler.go:141-220` | A tick keeps the invariant, and assigns only missing, unassigned chunks to connected peers, each once, within the budget |
| `Ownership.PieceKeepsInv` | `internal/peer/swarm.go:512-517` | A piece from anyone, good or bad, asked for or not, keeps the invariant |
| `Ownership.DisconnectKeepsInv` | `internal/peer/swarm.go:567-581` | Releasing a lost peer's chunks keeps the invariant: no other peer's chunk is released |
| `Stalls.RejectedNeverRequested` | `cmd/join.go:81-84` | No tick ever asks again for a rejected chunk: while nobody delivers it, it stays in the scheduler's set, and afterwards it is stored |
| `Stalls.StuckUntilDelivered` | `internal/scheduler/scheduler.go:74-96` | Nothing but an accepted piece takes a rejected chunk out of the scheduler's set: no timeout, disconnect or demand |
| `Stalls.SixteenRejectionsStopEverything` | `internal/scheduler/scheduler.go:163-166` | With sixteen rejected chunks outstanding no tick requests anything at all |
| `Stalls.SixteenRejectionsAreReached` | `internal/scheduler/scheduler.go:163-166` | Such a state is reached with one host, connected, idle and complete, and all 32 chunks missing; nothing is requested from it on |
| `Completion.StopsExactly` | `internal/scheduler/scheduler.go:163-213` | With no request outstanding and the host connected and complete, a tick asks for nothing exactly if sixteen chunks were rejected or nothing but rejected chunks is missing |
| `Completion.RejectedBound` | `internal/scheduler/scheduler.go:163-219` | With r rejected chunks, k rounds store min((16 - r)k, the others): exactly the rejected ones are left from round ceil((N - r)/(16 - r)) on, and with r = 16 nothing is stored |
| `Stalls.StalledIsReachable` | `internal/peer/swarm.go:512-517` | Such a rejected chunk is reached in a download with one peer and one chunk |
| `Stalls.OneBadPieceStalls` | `internal/peer/swarm.go:512-517` | There, with the only holder connected and idle, the missing chunk is never requested again |
| `Loads.LoadAfter` | `internal/scheduler/scheduler.go:193-219` | A tick adds to a peer's outstanding requests exactly the number of candidates it is chosen for with the loads before the tick |
| `Loads.LimitKeptExactly` | `internal/scheduler/strategy.go:110-133` | After a tick every peer has at most 4 requests outstanding exactly if, for every peer, the load before and the candidates it is chosen for come to at most 4 |
| `Loads.LoadBound` | `internal/scheduler/scheduler.go:197-219` | Over every run no peer has more than 19 requests outstanding |
| `Loads.MaxLoadIsReached` | `internal/scheduler/scheduler.go:197-219` | and in a reachable state one has 19 |
| `Loads.SoleHolderGetsAll` | `internal/scheduler/strategy.go:110-133` | With nothing outstanding, a sole peer that has everything is sent min(16 - r, missing - r) requests in one tick, r being the rejected chunks |
| `Completion.TickAsks` | `internal/scheduler/scheduler.go:141-220` | With the host holding everything and nothing but r rejected chunks in flight, a tick requests exactly min(16 - r, missing - r) chunks, each once |
| `Completion.RoundStores` | `internal/scheduler/scheduler.go:163-219` | A tick whose requests are all answered well, in any order and possibly repeatedly, among bitfields, HAVEs, connections, departures, demands, cursor moves and pieces that do not verify, stores exactly that many new chunks and leaves nothing else in flight |
| `Completion.CompletionBound` | `internal/scheduler/scheduler.go:163-219` | After k such rounds max(0, N - 16k) of N missing chunks are missing; the download is complete exactly from round ceil(N/16) on, and the in-flight and urgent sets are then empty |
| `TickCap.CapAtEveryStep` | `internal/scheduler/scheduler.go:141-220` | Over any number of ticks with removals interleaved into each, which works from a stale snapshot, at most 16 chunks are in flight at every intermediate step, a tick's batches never repeat a chunk, and their total is the budget used |
| `TickCap.UndisturbedTick` | `internal/scheduler/scheduler.go:155-214` | While nothing is removed, the set at every step of a tick is exactly what the tick saw and what it has assigned so far |
| `Holders.RarityIsExact` | `internal/peer/tracker.go:31-67` | Over every run with full-length bitfields of connected peers, the tracker lists for a chunk exactly the connected peers whose bitfield has it, so rarity is their number |
| `Announcements.PeersAreAnnounced` | `internal/peer/swarm.go:488-586` | Over every run, exactly the peers whose last connect or disconnect is a connect are in the peer table, each with the bitfield it has announced, read off the events |
| `Announcements.AnnouncedBits` | `internal/peer/swarm.go:490-532` | That bitfield is the last one the peer sent whole, by connecting or by BITFIELD, with the bits of the HAVEs since then that it reaches: for every index, set exactly if set there or named by a later HAVE |
| `Announcements.ListedExactly` | `internal/peer/swarm.go:490-586` | Over every run, a peer is listed for a chunk exactly if the latest bitfield that its BITFIELDs, HAVEs and connections since its last disconnect put to the tracker, of those that reach the chunk's byte, has the bit; all read off the events |
| `Records.RunRecords` | `internal/scheduler/scheduler.go:63-83` | Over every run, read off the events: the stored chunks are those of which a good piece came, from whomever; the urgent ones those ever demanded that are not stored; the cursor is where it was last set |
| `Requests.TickTimes` | `internal/scheduler/scheduler.go:141-156` | After a tick no outstanding request is more than 3 s old; those that were not keep their times; every other one is made by this tick |
| `Requests.SchedulerKeepsExactly` | `internal/scheduler/scheduler.go:143-156` | After a tick a chunk is in the scheduler's set exactly if it is assigned now, or was there and no connected peer has owed it for more than 3 s |
| `Requests.TickHalvesSpeed` | `internal/peer/peer.go:156-163` | Each request of a peer that is more than 3 s old halves its speed estimate in the tick |
| `Requests.HalvedTimesPower` | `internal/peer/peer.go:156-163` | n halvings divide the estimate by 2 to the n |
| `Requests.OverdueTickAsks` | `internal/scheduler/scheduler.go:141-220` | If every outstanding request is overdue and a complete host is connected, one tick asks again for min(16 - r, missing - r) distinct missing chunks, r being the rejected ones |
| `Requests.PieceSettles` | `internal/peer/peer.go:133-145` | A piece, verified or not, removes the chunk from its sender's outstanding requests and moves the sender's speed three tenths of the way to the measured rate; no other peer changes |
| `Requests.TickSends` | `internal/peer/swarm.go:268-280` | A tick sends a peer at most one REQUEST; it names exactly the chunks that are outstanding at the peer after the tick and were not, or were overdue, before it, each once and in the order of priority |
| `Requests.EveryDebtWasSent` | `internal/peer/swarm.go:268-280` | Over every run, each chunk that a peer owes was named by a REQUEST sent to that peer |
| `Joiner.Scheduler.Tick` | `internal/scheduler/scheduler.go:141-220` | The imperative tick over the scheduler, swarm, tracker and store objects takes exactly the engine's tick step, with a priority order of its own candidates |
| `Joiner.Scheduler.AssignLoop` | `internal/scheduler/scheduler.go:193-214` | The assignment loop makes the specified assignments, enters them in the in-flight set and groups them by peer |
| `Joiner.Scheduler.ReleaseTimedOut` | `internal/scheduler/scheduler.go:143-156` | Requests older than the timeout leave the peers' maps and the scheduler's set |
| `Joiner.Scheduler.Demand` | `internal/scheduler/scheduler.go:63-70` | A chunk that is not stored becomes urgent; nothing else changes |
| `Joiner.Scheduler.SetCursor` | `internal/scheduler/scheduler.go:55-59` | The cursor moves there; nothing else changes |
| `Joiner.Scheduler.OnPieceReceived` | `internal/scheduler/scheduler.go:74-83` | Exactly the chunk leaves the in-flight and urgent sets |
| `Joiner.Scheduler.ReleaseInFlight` | `internal/scheduler/scheduler.go:87-96` | Exactly the listed chunks leave the in-flight set |
| `Joiner.Swarm.RequestChunks` | `internal/peer/swarm.go:268-280` | The peer records the batch as outstanding and as sent; other peers are untouched, and nothing happens for an unknown ID |
| `Joiner.Swarm.SendBatches` | `internal/scheduler/scheduler.go:216-219` | Sending the grouped batches in map order leaves every peer as the assignments say |
| `Joiner.GroupByBatches` | `internal/scheduler/scheduler.go:207-213` | Grouping by peer keeps, for each peer, exactly its assignments in order |
| `Session.Session.HandlePiece` | `internal/peer/swarm.go:512-517` | The message handler and the store callback take the engine's piece step: cleared at the sender in any case, released in the scheduler only if stored |
| `Session.Session.HandleBitfield` | `internal/peer/swarm.go:490-494` | Bitfield receipt takes the engine's step in peer and tracker, also for a peer that is no longer connected |
| `Session.Session.HandleHave` | `internal/peer/swarm.go:519-532` | HAVE sets one bit, if the bitfield reaches it, and re-enters the bitfield in the tracker |
| `Session.Session.AddPeer` | `internal/peer/swarm.go:562-586` | A connection enters the peer table with the bitfield it brought, in place of one with the same ID |
| `Session.Session.PeerGone` | `internal/peer/swarm.go:567-581` | A disconnect removes the peer from table and tracker and releases its chunks |
| `Strategy.PrioritizeChunks` | `internal/scheduler/strategy.go:33-67` | Returns each missing, not-in-flight, held chunk exactly once, with its holders and score, in score order |
| `Strategy.TierOrder` | `internal/scheduler/strategy.go:76-91` | Score order means: demanded chunks first, then the playback window by ascending index, then the rest with fewer holders first |
| `Strategy.UrgentFirst` | `internal/scheduler/strategy.go:76-80` | A demanded chunk that can be requested is a candidate with score 0 and only demanded chunks come before it |
| `Strategy.SelectIsBest` | `internal/scheduler/strategy.go:110-133` | No peer is chosen exactly when no holder is available; otherwise the chosen one is an available holder with the maximal speed/(1+load) |
| `Strategy.ScoresCompare` | `internal/scheduler/strategy.go:100-106` | Peers compare by the cross products of speed and load, the request to come included, an unmeasured peer counting as 100000 bytes a second |
| `Strategy.LighterLoadWins` | `internal/scheduler/strategy.go:100-106` | Among unmeasured peers, as among equally fast ones, exactly the one with fewer outstanding requests wins |
| `Strategy.SelectPeer` | `internal/scheduler/strategy.go:110-133` | The loop with its running best computes that choice |
| `Strategy.AssignSound` | `internal/scheduler/scheduler.go:193-214` | Every assignment is of a candidate to the best of its available holders, and the budget is kept |
| `Strategy.AssignDistinct` | `internal/scheduler/scheduler.go:193-214` | No chunk is assigned twice in a tick |
| `Strategy.SkippedOnlyIfUnavailable` | `internal/scheduler/scheduler.go:193-214` | A candidate passed over, although a later one is requested or budget is left, has no available holder |
| `Strategy.NoPriorityInversion` | `internal/scheduler/scheduler.go:193-214` | If a tick requests one candidate but not another with a strictly better score, every holder of the other was disconnected or had at least 4 requests outstanding |
| `Peers.Peer.TimeoutInFlight` | `internal/peer/peer.go:150-167` | Exactly the expired requests are given up and returned, each once, and the speed is halved once for each |
| `Peers.Peer.ClearInFlight` | `internal/peer/peer.go:133-145` | An outstanding request is removed and the moving average of the speed updated; otherwise nothing changes |
| `Peers.ClearMovesSpeed` | `internal/peer/peer.go:133-145` | An answer moves the estimate three tenths of the way to the measured rate; unasked pieces and answers in no time leave it |
| `Peers.Peer.RequestBatch` | `internal/peer/swarm.go:276-279` | All of the batch becomes outstanding at the given time |
| `Tracker.Tracker.UpdateFromBitfield` | `internal/peer/tracker.go:31-47` | The peer is listed for exactly the chunks whose bit is set, as far as the bitfield reaches; the tail is untouched |
| `Tracker.Tracker.RemovePeer` | `internal/peer/tracker.go:50-56` | The peer is listed nowhere, other peers as before |
| `Tracker.Tracker.Rarity` | `internal/peer/tracker.go:60-67` | The number of listed peers, 0 out of range |
| `Tracker.Tracker.PeerIDsWithChunk` | `internal/peer/tracker.go:70-81` | Exactly the listed peers, each once; none out of range |
| `Tracker.RefinesHistory` | `internal/peer/tracker.go:31-56` | After any sequence of updates and removals a peer is listed for a chunk exactly when its latest update since its last removal that reaches the chunk's byte has the bit set |
| `Bitfield.WithBitAddsExactly` | `internal/chunk/store.go:261-267` | Setting bit i changes membership of i and of no other index, padding included, under the most-significant-first layout |
| `Bitfield.HasBitExactly` | `internal/chunk/store.go:265-267` | Index i is bit 128, 64, ..., 1 of byte i/8, in this order |
| `Bitfield.SetBit` | `internal/chunk/store.go:261-263` | The array is updated in place accordingly |
| `Bitfield.MakeBitfield` | `internal/chunk/store.go:257-259` | A bitfield of the rounded-up length with no bit set |
| `Store.Store.WriteChunk` | `internal/chunk/store.go:83-119` | Out of range, already stored, wrong hash, disk error and success each have the specified effect on file, bits, counter and result; the waiting channel is closed and dropped exactly when the chunk becomes stored |
| `Store.WriteReports` | `internal/chunk/store.go:83-119` | WriteChunk reports success exactly if the chunk is stored afterwards; it stores no other chunk, and leaves a chunk stored before alone whatever the data |
| `Store.Store.WaitForChunk` | `internal/chunk/store.go:214-237` | Returns at once exactly if the chunk is stored; otherwise an open registered channel, the same for all waiters |
| `Store.Store.ReadBytes` | `internal/chunk/store.go:142-168` | Error, clamping and the waiting loop: the clamped range, or the first missing chunk it blocks on, which is then registered |
| `Store.Store.ReadChunk` | `internal/chunk/store.go:123-137` | The chunk's region as far as the file reaches, or an error out of range |
| `Store.Store.MissingChunks` | `internal/chunk/store.go:201-211` | The ascending complement of the bitfield |
| `Store.MissingSize` | `internal/chunk/store.go:201-211` | There are chunkCount minus stored many missing chunks |
| `Store.CompleteExactly` | `internal/chunk/store.go:194-198` | With an exact counter IsComplete holds exactly when nothing is missing |
| `StoreLaws.WriteKeepsFaithful` | `internal/chunk/store.go:83-119` | Every write, good, bad, repeated or cut short, keeps all stored regions equal to the original's and the counter exact |
| `StoreLaws.StoredExactly` | `internal/chunk/store.go:83-119` | A missing chunk becomes stored exactly when its own bytes are delivered and the disk takes them all |
| `StoreLaws.DeliveriesKeepFaithful` | `internal/chunk/store.go:83-119` | The same over any sequence of deliveries |
| `StoreLaws.DownloadsFaithfully` | `internal/chunk/store.go:56-79` | and from a new store, whatever a file of that name held before |
| `Store.Store.constructor` | `internal/chunk/store.go:56-79` | A store of the manifest's size with nothing stored, over the bytes an earlier file left |
| `StoreLaws.ServedIsAccepted` | `internal/peer/swarm.go:496-510` | What a peer serves from a stored chunk is the original's chunk, and any other peer's store accepts it |
| `StoreLaws.ReadIsOriginal` | `internal/chunk/store.go:142-168` | Whatever ReadBytes returns is the original's slice clamped to the file; it fails exactly for offsets outside the file |
| `StoreLaws.ReadSucceedsExactly` | `internal/chunk/store.go:142-168` | A read succeeds exactly when the chunk of every byte it covers is stored |
| `StoreSafety.NoLostWakeup` | `internal/chunk/store.go:104-116` | In every reachable interleaving each blocked reader's channel is closed or still registered; a registered chunk that is stored has a writer about to signal it; no registered channel has been closed, so none is closed twice |
| `StoreSafety.OnlyMissingChunksBlock` | `internal/chunk/store.go:214-237` | When nothing can move, every call has returned except reads blocked on a chunk that is not stored and is urgent; no registered chunk is stored |
| `StoreSafety.DemandedUntilStored` | `internal/player/server.go:112-127` | Every chunk a waiting read needs is stored or urgent, with demand, writes and notifications interleaved at will |
| `StoreSafety.ReadsAreOriginal` | `internal/chunk/store.go:142-168` | Every finished read has exactly the original file's bytes, although file bytes are written and read one by one by concurrent calls |
| `StoreSafety.StoredIsOriginal` | `internal/chunk/store.go:83-119` | A set bit means the chunk's region of the file is the original's, in every reachable state |
| `StoreSafety.StepKeepsInv` | `internal/chunk/store.go:83-237` | Each atomic step of any call keeps the invariant behind these |
| `StoreCount.CallsTerminate` | `internal/chunk/store.go:83-237` | No schedule keeps a given set of calls busy for ever: a measure bounds the number of steps |
| `Uninterrupted.WholeWrite` | `internal/chunk/store.go:83-119` | The steps of a WriteChunk that nobody interrupts come to exactly Store.Write, with the signal and the notification for a chunk that becomes stored |
| `Uninterrupted.WholeRead` | `internal/chunk/store.go:142-168` | The steps of a Read that nobody interrupts end with exactly the bytes of Store.ReadRange, or blocked on the chunk it names, and have made urgent exactly the chunks Reader.Demanded names |
| `StoreCount.NeverTooFew` | `internal/chunk/store.go:104-108` | The counter is never below the number of set bits, in any interleaving |
| `StoreCount.CountExactly` | `internal/chunk/store.go:88-108` | Without disk errors and with no call between its test and its mark, the counter is exact exactly if no two calls for one chunk were ever past their test together |
| `StoreCount.ExactWithoutOverlap` | `internal/chunk/store.go:88-108` | If no two calls for one chunk are ever past their test together, disk errors or not, the counter is exact and IsComplete means every chunk is stored |
| `StoreCount.CompleteTooEarly` | `internal/chunk/store.go:104-108` | Overlapping writes of one chunk make IsComplete true with a chunk missing |
| `StoreCount.NeverCompleteAgain` | `internal/chunk/store.go:194-198` | and false again once every chunk is stored |
| `Chunker.CountExactly` | `internal/chunk/chunker.go:47-49` | The computed chunk count is the ceiling of size by chunk size exactly when the int64 sum does not wrap |
| `Chunker.ChunkBounds` | `internal/chunk/chunker.go:53-62` | Every chunk has between 1 and chunkSize bytes, lies in the file, and has the size ChunkSizeAt reports |
| `Chunker.CoveringChunk` | `internal/chunk/store.go:152-156` | Every byte lies in the chunk its offset divided by the chunk size names, and that chunk exists |
| `Chunker.Partition` | `internal/chunk/chunker.go:47-82` | The chunks concatenate to the file |
| `Chunker.FileChunker.ReadChunk` | `internal/chunk/chunker.go:67-82` | Puts exactly the chunk at the front of the caller's buffer and leaves the rest; error for a bad index or a short buffer |
| `Chunker.NewChunker` | `internal/chunk/chunker.go:24-43` | Refuses exactly non-positive chunk sizes and empty files |
| `HashPool.ExactlyOnePlace` | `internal/chunk/manifest.go:61-97` | In every interleaving of feeder, workers and collector each chunk index is in exactly one place |
| `HashPool.NeverStuck` | `internal/chunk/manifest.go:61-126` | Until everything is collected some step is possible |
| `HashPool.BoundedSteps` | `internal/chunk/manifest.go:61-126` | No interleaving is longer than 6 steps a chunk, one a worker and one to close |
| `HashPool.ScheduleIndependent` | `internal/chunk/manifest.go:97-126` | In any interleaving, once the collector has its results, the build reports an error exactly if some read failed, and otherwise the chunk table is the sequential one |
| `HashPool.HaltedMeansCollected` | `internal/chunk/manifest.go:97-126` | A run that can go no further has collected all results |
| `HashPool.AnyOrderSameTable` | `internal/chunk/manifest.go:97-112` | Results in any order fill the same table |
| `HashPool.CollectResults` | `internal/chunk/manifest.go:97-124` | The collector loop over an array, with its first-error rule, computes the specified table |
| `Manifests.ManifestToProto` | `internal/peer/peer.go:207-222` | The converter fills the chunk table as specified, cutting sizes to 32 bits |
| `Manifests.ProtoToManifest` | `internal/peer/peer.go:225-240` | The converse |
| `Manifests.ConvertedBackExactly` | `internal/peer/peer.go:207-240` | Converting there and back is the identity exactly when every chunk size fits 32 bits |
| `Manifests.FrameAcceptedExactly` | `internal/protocol/codec.go:133-149` | A manifest frame can be read back exactly when the name fits its length field and 1 + 22 + name + 36 per chunk is within the message limit |
| `Manifests.TransportExactly` | `internal/peer/peer.go:207-240` | The joiner ends up with the host's manifest exactly when name, chunk sizes and frame are within their limits |
| `Wire.UniqueReading` | `internal/protocol/codec.go:128-339` | A payload of a given type holds at most one message |
| `Layout.FrameLayout` | `internal/protocol/codec.go:26-73` | A frame is a four-byte count of what follows, the type byte, 1 to 10, and the payload |
| `Layout.ShortLayouts` | `internal/protocol/codec.go:151-159` | BITFIELD is the bits alone, HAVE and CANCEL the index alone, a keepalive nothing |
| `Layout.MostSignificantFirst` | `internal/protocol/codec.go:57-73` | The first byte of a number is its highest; the others are those of the remainder |
| `Layout.HandshakeLayout` | `internal/protocol/codec.go:128-131` | 16 bytes of peer ID, then the version |
| `Layout.ManifestLayout` | `internal/protocol/codec.go:133-149` | Name length, name, file size, chunk size and chunk count, then 36 bytes a chunk, size and hash, each at its offset |
| `Layout.RequestLayout` | `internal/protocol/codec.go:254-259` | A count, then index k at byte 4 + 4k |
| `Layout.PieceLayout` | `internal/protocol/codec.go:161-166` | The index, then the data |
| `Layout.SyncLayout` | `internal/protocol/codec.go:168-174` | Playback time, state byte, wall clock |
| `Layout.PeerListLayout` | `internal/protocol/codec.go:176-184` | A count; address k follows its own two-byte length, behind all earlier entries |
| `Stream.RoundTripExactly` | `internal/protocol/codec.go:26-124` | A written message is read back, with the rest of the stream untouched, exactly when its counts and lengths fit their fields and its frame the size limit |
| `Stream.ReadSound` | `internal/protocol/codec.go:76-124` | Whatever is read was there: its re-encoding is a prefix of the payload, the whole payload for BITFIELD and PIECE |
| `Stream.TruncatedRoundTrip` | `internal/protocol/codec.go:26-124` | For any list of such messages and any cut of the bytes, repeated reads give exactly the messages whose frames lie before the cut, in order, then an error |
| `Stream.StreamRoundTrip` | `internal/protocol/codec.go:26-124` | Without a cut, everything written is read |
| `Codec.WriteMessage` | `internal/protocol/codec.go:26-73` | Buffering the payload behind a blank header and patching it writes exactly the message's frame |
| `Codec.EncodeManifest` | `internal/protocol/codec.go:133-149` | The encoder loop appends exactly the payload |
| `Codec.EncodeRequest` | `internal/protocol/codec.go:254-259` | as above |
| `Codec.EncodePeerList` | `internal/protocol/codec.go:176-184` | as above |
| `Codec.DecodeManifest` | `internal/protocol/codec.go:199-237` | The decoder returns the message the payload holds, and an error exactly if it holds none |
| `Codec.DecodeRequestBatch` | `internal/protocol/codec.go:261-280` | as above |
| `Codec.DecodePeerList` | `internal/protocol/codec.go:314-339` | as above, with addresses of varying length |
| `Codec.DecodeHandshake` | `internal/protocol/codec.go:188-197` | as above |
| `Codec.DecodePiece` | `internal/protocol/codec.go:282-292` | as above |
| `Codec.DecodeSync` | `internal/protocol/codec.go:303-312` | as above |
| `Codec.ReadMessage` | `internal/protocol/codec.go:76-124` | Length checks, body and dispatch on the type: the specified message and position, or an error |
| `Framing.ReadManyExactly` | `internal/peer/swarm.go:174-231` | n reads of a stream cut anywhere succeed exactly when n items lie before the cut |
| `Handshake.GreetingFirst` | `internal/peer/swarm.go:430-482` | In every interleaving of joins, replies and broadcasts the host's output on a connection begins HANDSHAKE, MANIFEST, BITFIELD, PEER_LIST as far as it gets |
| `Handshake.PeerListNames` | `internal/peer/swarm.go:455-463` | In every run, the PEER_LIST on a connection names exactly the addresses of the connections that were in the peer table when it was written, one for each; the new connection is not among them yet |
| `Handshake.GreetedExactly` | `internal/peer/swarm.go:157-256` | Whatever part of that output arrives, the joiner is greeted, with the host's ID, manifest and bitfield, exactly when the four frames are whole |
| `Handshake.ConnectToHost` | `internal/peer/swarm.go:174-231` | The four typed reads give the specified greeting and leave the rest of the stream |
| `Reader.DemandReadSeeker.Read` | `internal/player/server.go:98-135` | The specified outcome for store state, offset and buffer; bytes at the front of the buffer, offset advanced by their number; exactly the missing chunks of the range made urgent |
| `Reader.DemandReadSeeker.Seek` | `internal/player/server.go:138-156` | Moves to the target or leaves the offset |
| `Reader.SeekExactly` | `internal/player/server.go:138-156` | A seek succeeds exactly when its target is non-negative and fits an int64, and then lands there |
| `ReaderLaws.OneRead` | `internal/player/server.go:98-135` | A read that does not block returns at least one byte, exactly the original's next ones; end of file exactly at the end or for an empty buffer |
| `ReaderLaws.BlocksOnDemanded` | `internal/player/server.go:112-127` | A read blocks only on a missing chunk that it has demanded |
| `ReaderLaws.DemandsExactly` | `internal/player/server.go:112-122` | A chunk is demanded by a read exactly if it is not stored and some byte of the range, cut at the end of the file, lies in it |
| `ReaderLaws.DeliversOriginal` | `internal/player/server.go:98-135` | Over any sequence of reads, with chunks arriving in between, the bytes delivered are a stretch of the original from the starting offset |
| `ReaderLaws.ReadsToTheEnd` | `internal/player/server.go:98-135` | As many unblocked non-empty reads as bytes remain deliver exactly the suffix |
| `ReaderLaws.CompleteReadsToTheEnd` | `internal/player/server.go:98-135` | With every chunk stored no read blocks, so that many deliver the suffix |
| `Drift.SyncManager.HandleSync` | `internal/sync/sync.go:86-145` | The branches and player commands have the specified effect, whichever queries and commands fail |
| `Drift.SyncManager.HostMessage` | `internal/sync/sync.go:59-80` | A message exactly if both queries are answered, with position, state and time |
| `Drift.PauseAgreesExactly` | `internal/sync/sync.go:92-109` | After a message the pause states agree exactly if they did before or the state was known and the command worked |
| `Drift.PausesWhereTheHostIs` | `internal/sync/sync.go:94-100` | A pause message to a running player leaves it standing exactly at the message's position at speed 1; a command that fails leaves its own part as it was |
| `Drift.PausedIsLeftAlone` | `internal/sync/sync.go:107-109` | A pause message to a paused player changes nothing, wherever it stands |
| `Drift.PlayMessageExactly` | `internal/sync/sync.go:101-144` | Pause flag, position and speed after a play message, for every drift and every combination of failing queries and commands |
| `Drift.PausedTogether` | `internal/sync/sync.go:94-109` | If the first pause message's commands work, host and player stand at the same position, at speed 1, through any number of further pause messages |
| `Drift.PausedApart` | `internal/sync/sync.go:94-109` | If only its seek fails, the player keeps its distance to the host through all of them |
| `Drift.PlayThenPause` | `internal/sync/sync.go:86-144` | From any state of the player, after at least one message of the playing host and then at least one pause message, both stand at the same position |
| `Drift.NeverOvershoots` | `internal/sync/sync.go:126-144` | A drift outside the tolerance never passes it; one inside stays as it is |
| `Drift.SyncConverges` | `internal/sync/sync.go:110-144` | From any state, messages at most 20 s apart covering 30 s leave the player running within 0.5 s of where it believes the host is |
| `Drift.SyncedWithGoodClocks` | `internal/sync/sync.go:119-144` | With agreeing clocks and latencies up to 5 s that is where the host is |
| `Drift.SettlesBehind` | `internal/sync/sync.go:119-122` | With a steady latency above 5 s the player settles behind the host by that latency |
| `Drift.FifteenMessages` | `internal/sync/sync.go:52-52` | At one message every 2 s, 15 are enough for any drift |
| `Drift.FourteenAreTooFew` | `internal/sync/sync.go:52-52` | and 14 are not |
| `EndToEnd.BuiltSequentially` | `internal/chunk/manifest.go:40-127` | In any schedule of the hashing pool, once all results are collected, the build gives the sequential manifest or reports a read error that happened |
| `EndToEnd.ReceivedDescribes` | `internal/peer/peer.go:207-240` | The manifest a joiner decodes from what the host built and sent describes the host's file |
| `EndToEnd.PlayerSeesOriginal` | `internal/chunk/store.go:142-168` | Hashed in any schedule and sent over the wire: with the store working from the manifest the joiner decoded, in any interleaving, every finished read has the bytes of the host's file |

## Left out

- Joiner.Scheduler.Tick: one time stands for all clock readings of a tick, and the tick is atomic with respect to the other events; a disconnect between choosing a peer and sending it the batch is not modelled, and `TickCap` covers concurrent removals only for the cap and the batches.
- Strategy.SortByScore: an insertion sort stands for the library's sort, which leaves the order of equal scores open; the theorems use only what any sort guarantees.
- Session.Session.PeerGone: the removal of a new connection by the monitor of an old one with the same peer ID is excluded, and the runs of the engine have no two connections with one ID at once.
- Store.Store.WriteChunk: offsets are unbounded integers; a manifest received from the wire whose chunk count times chunk size exceeds an int64 is not covered, and neither is one with a non-positive chunk size.
- Store.Store.ReadBytes: returns where the original would block; `StoreProtocol` has the blocking and waking. A negative length, which makes the original panic, is excluded.
- Reader.DemandReadSeeker.Read: returns where the original would block. The sum of offset and buffer length is not wrapped to an int64.
- Chunker.FileChunker.ReadChunk: read errors of the file appear only in `HashPool`; a failing Stat in `Chunker.NewChunker` and a failing ReadAt in `Store.Store.ReadChunk` are not modelled.
- Codec.WriteMessage: a failing write to the connection is not modelled; `Stream.TruncatedRoundTrip` covers what the reader then sees.
- Store.Store.WaitForChunk: ends before the blocking receive; `StoreProtocol` has it.
- StoreCount.CountExactly: with disk errors a race may be harmless, when one of the two calls fails; `StoreCount.ExactWithoutOverlap` holds with them too.
- Codec.DecodeManifest: errors are not told apart, and the memory that the original allocates from a count before reading the items is not modelled; the same holds for the other list decoders.
- Peers.Peer.RequestBatch: the queue between a peer and its write loop is a list of the batches sent, without capacity; a sender that waits for room is not modelled.
- Drift.SyncManager.HandleSync: floating-point rounding, and a player that changes state between two queries of one message, are not modelled.
- Handshake.GreetingFirst: the greeting by a non-host, whose swarm cannot listen, and the retries of a joiner are not modelled.
- Handshake.GreetedExactly: requires the four messages to be within the limits of the wire format; for the manifest `Manifests.FrameAcceptedExactly` says when they are.
- StoreProtocol: errors of the file system other than a failing write, and closing the store under a reader.
- TCP connections, deadlines, keepalives and reconnection: library input and output.
- Serving REQUEST messages and connecting to the addresses of a peer list: one loop each over operations modelled elsewhere.
- CANCEL and `protocol.Dispatch`: no behaviour, or a dispatch over types.
- The mpv process, its IPC and `http.ServeContent`: foreign programs and an unseen library.
- Command line, token encoding, logging, tickers and signals: no state of their own.
- The host's own store, complete from the start, and accessors such as `Count` and `Manifest`: only easy members.
