# A model of the BitTorrent client

This project models the core of a BitTorrent client written in Rust and proves
properties of it. It has five parts.

- **The download engine.** `Geometry` cuts the file into pieces and 16 KiB
  blocks. `Downloads` gives the download state as a value and the meaning of its
  operations; the class `DownloadStates.DownloadState` updates that state in
  place and is proved against them. SHA-1 is an arbitrary function
  (`Meta.sha1`); nothing is known of it but that equal bytes have equal digests.
- **The peer workers.** `Sections` says what each lock-guarded section of a
  worker does to the shared state; `Clients.BitTorrentClient` does the same with
  objects updated in place, method by method. `Protocol` gives every worker a
  program counter that holds what it carries from one section to the next: blocks
  picked but not yet pending, taken off the pending list but not yet stored, timed
  out but not yet released. A run is any interleaving of any workers' sections,
  with any messages, any clock readings, and any writes failing. `Safety` proves
  an invariant of every section, `Runs` what follows for whole runs, `Exclusive`
  what holds as long as no discard is harmful, `TwoHolders` that this proviso is
  needed, and `Losses` what becomes of blocks and connections whose worker dies.
  `Asking` says whom a worker asks, for what and when, in every run, and `Upkeep`
  what the other sections do, told from the state before them.
  `Scripts` has the short runs that reach the states shown.
- **The wire.** `Wire` has framing, keep-alives, requests and piece messages;
  `Bitfields` the packed set of pieces; `Connections` what each message does to
  one connection. `Transfer` takes a piece from one peer to another over the wire.
- **Metadata.** `Bencode` is the recursive parser and `Grammar` a grammar of
  bencoded texts apart from it. `Scanner` is what the separate depth-counting
  scanner makes of a text while its counters hold, and `Scanning` its loop, turn
  by turn, in a build that traps overflow and in one that wraps. `Encoding` is an
  independent printer of bencoded trees used to say what the message texts mean.
  `MetadataMessages` prints and reads the messages of BEP 9 and BEP 10, and
  `MessageTrees` says what is read of any encoded tree. `MetadataFetch` is the
  waiting for the handshake and the fetching loop, `Retries` what becomes of lost
  answers. `Torrents` relates the torrent file to the info dictionary fetched
  alone, and `TorrentTrees` gives their fields.
- **The pool.** `Pools` has the slots, index and free stack behind the connection
  table, and proves that together they are a plain map.

Assumptions taken from the code around the core: metainfo is well formed
(`Meta.WellFormed`: at least one piece, a piece length of at least one byte, one
hash per piece, a last piece that is not empty, piece numbers that fit 32 bits);
an address is dialled only when it is not in the connection table, so it has at
most one live worker (src/peer/client.rs:802-814). Clock readings are natural
numbers of nanoseconds. Casts to 32 and 64 bits are written out. `usize` is `nat`
except where its 64 bits are within a peer's reach: the scanner's position and the
sum of the file lengths. What these do on overflow depends on the build
(`Basics.Build`), a parameter of everything that reads metadata. A worker whose
reader hangs is modelled like one whose reader panics: it takes no further section,
its cleanup does not come, and its connection stays.

## What turned out not to hold

The model keeps the code as it is. Where a property one would expect fails, a
lemma shows an input or a run on which it fails, and another says exactly when
it holds.

- A handshake printed without a metadata size lacks the byte that closes its
  outer dictionary, so it is unreadable: `HandshakeYieldsIdIff`. The fetching side
  sends exactly that handshake, so a peer running this client never learns its id
  and never answers it (`FetcherIsNeverAnswered`); one that announces a size is
  answered (`AnnouncedPeerIsAnswered`).
- The metadata readers slice up to the scanner's answer, which may lie past the
  data. `ReaderPanicsIff` says exactly when they panic, for every text and either
  build. As long as no token takes a counter out of range both builds read alike,
  and panic exactly when a string outside every container, declared longer than
  what is left, is reached past tokens that do not end the scan
  (`BuildsReadAlike`). The texts `9:ab` and `ed9:ab` do it (`PanicExample`,
  `ClosingPanicExample`): a stray closing byte takes the depth below zero, and an
  opening one brings it back unchecked. While the counters hold, texts that begin
  with anything but a string or a closing byte stay in bounds (`OthersStayInBounds`).
- The scanner does not always return. A string may declare a length that takes the
  64-bit position out of range. A build that traps overflow panics there
  (`TrappingPanicsIff`); a release build, the one the repository's README
  documents, wraps and goes on from the wrapped position (`ExhaustedGoesOn`). It
  never returns exactly when a position and depth come back (`FindForeverIff`),
  as on the 22 bytes `l18446744073709551595:` (`LoopingNeverEnds`), which make one
  metadata request that keeps its reader busy for ever (`HangExample`). Other such
  texts are merely ignored where overflow wraps (`WrapExample`).
- The scanner's depth is a signed 32-bit counter. It agrees with the parser
  exactly when the nesting fits (`ScannerAgreesWithParser`). A level of nesting
  takes two bytes, so for every value a peer message can carry it does fit, and
  the agreement is unconditional (`ScannerFindsParsedValue`,
  `ParsableNeverPanics`).
- The parser calls itself for every list and dictionary, with no limit: on a text
  of n opening bytes its calls nest n deep (`OpeningsNest`), and never deeper than
  the text is long (`NestingWithinText`). The model's stack has no end; a real one
  does, and the handshake reader parses what a peer sends.
- A worker is gone without its cleanup when it reads a text that panics or hangs
  in a metadata request, or stores the block that fills the last empty slot kept
  for a piece number out of range: `StorePanicsIff`, `VanishesIffPanics`. A block
  that was pending with it may then be requested for good. `ReachableLoss` is such
  a run, `LostForGood` says that nobody picks the block again unless some peer
  sends it unasked, and `AliveThroughoutIff` says exactly which runs keep a live
  holder for every requested block.
- A worker that ends before its main loop, because one of its first writes
  fails, leaves its connection in the table (`EarlyEndLeavesConnection`). As after
  a panic, that address is never dialled again (`NeverDialledAgain`). After a run
  every connection has a worker exactly when the run has no such end and no such
  read or store (`MannedIff`, one section at a time `NextMannedIff`).
- When a piece fails its hash, its stored blocks are forgotten while other peers
  may still hold blocks of it unmarked after a late or unsolicited reply. Then two
  peers can hold one block: `DiscardBreaksExclusivity` is such a run, for any
  SHA-1 and any one-byte piece that some byte is not. `DiscardKeepsAssignedIff`
  says which discards are harmless, and `AssignedThroughoutIff` that held blocks
  stay assigned all through a run exactly when it has no harmful one.
- A peer that sends no bitfield is never asked for anything, whatever pieces it
  announces later: `NeverAsked`.
- Deserializing a buffer that begins with a zero length prefix and a known kind slices
  backwards (`SlicePanicsIff`). The reading loop skips such prefixes as keep-alives,
  so no stream reaches it (`ReadOneIff`).
- A slot of the pool is lost whenever an address is inserted twice:
  `SlotsConserved` counts them.
- The lengths of listed files are added in 64 bits: the total is their sum only if
  it fits (`FilesTotalIs`). Where overflow traps, an info dictionary panics exactly
  on such a list (`InfoDictPanicsIff`), a torrent file never (`FileNeverPanics`).
- A torrent file that lists several files and has no single length is turned
  down, although its info dictionary alone is accepted: `FileAcceptedIff`, and
  `ManyFilesTurnedDown` for a concrete one.

Nothing in the client calls `build_bitfield`, and nothing sends a `have` message:
it serves its pieces but never announces them. `AnnouncedPiecesAreFinished` says
what the announcement would tell.

The classes also have constructors, lookups, setters and counters of one field
(`RecordUpload`, `CountResponse`, `AddPendingRequest`, `Connect` and the like). Each
is proved to give its whole new state, by the same values; they have no row below.

## Model

| member | source | states |
|---|---|---|
| `Geometry.TilingPartitionsFile` | src/peer/state.rs:101-122 | every byte below the total size, and no other, lies in a block, and in only one |
| `Geometry.TileBounds` | src/peer/state.rs:101-122 | every block has 1 to 16384 bytes, lies inside its piece, and only the last of a piece is short |
| `Geometry.LengthsAddUp` | src/peer/state.rs:101-122 | block lengths add up to the piece length, and piece lengths to the total size |
| `Geometry.ChunksRebuildFile` | src/peer/state.rs:114-122 | the pieces of a file, in order, concatenate to the file, short last piece included |
| `Downloads.ScanVisitsOnce` | src/peer/state.rs:60-72 | the rotated scan reaches each piece at exactly one step |
| `Downloads.PickIsFirstEligible` | src/peer/state.rs:60-98 | the pick is the first eligible block in rotated order, and none exactly when no block is eligible |
| `Downloads.FirstEligibleUnique` | src/peer/state.rs:60-98 | only one result keeps that promise |
| `DownloadStates.DownloadState.FindNextBlockInPiece` | src/peer/state.rs:75-98 | the loop finds the first block of a piece neither requested nor stored |
| `DownloadStates.DownloadState.PickBlock` | src/peer/state.rs:60-72 | the loop finds the first eligible block of any piece, if there is one |
| `DownloadStates.DownloadState.CompleteBlock` | src/peer/state.rs:152-200 | the update in place does what `Downloads.Complete` says, in all four outcomes |
| `DownloadStates.DownloadState.TotalBlocks` | src/peer/state.rs:236-240 | the total number of blocks, an upper bound of the completed ones |
| `DownloadStates.DownloadState.CountCompleted` | src/peer/state.rs:243-261 | the two loops count each held block once, and reach the total exactly when the download is complete |
| `DownloadStates.DownloadState.BuildBitfield` | src/peer/state.rs:264-272 | bit i is set exactly for finished pieces, so spare bits are zero |
| `DownloadStates.DownloadState.GetPieceBlock` | src/peer/state.rs:276-293 | bytes are served exactly for a range inside a finished piece, and are that range |
| `DownloadStates.DownloadState.WriteToFile` | src/peer/state.rs:300-311 | writes the pieces in order, or names the first missing one |
| `Downloads.CompleteKeepsValid` | src/peer/state.rs:152-200 | after any call with any data, every kept piece has its hash and every tracked piece an empty slot |
| `Downloads.StorePanicsIff` | src/peer/state.rs:152-200 | a call indexes out of the hash table exactly when the piece number is out of range and the block fills the last empty slot kept for it; it discards a piece exactly when the block fills the last slot and the joined blocks miss the hash |
| `Downloads.CompleteTouchesOnePiece` | src/peer/state.rs:152-200 | a call changes one piece only, and never loses a finished one |
| `Downloads.AccountingMeetsTotalIffComplete` | src/peer/state.rs:210-261 | the completed count is at most the total, with equality exactly when the download is complete |
| `Downloads.CompleteChangesCount` | src/peer/state.rs:152-200 | each call changes the completed count by exactly +1, 0, or -(n-1) when an n-block piece is discarded |
| `Downloads.CompleteDownloadIsTheFile` | src/peer/state.rs:300-311 | if only the file's pieces have the listed hashes, the download is complete exactly when the file is what gets written |
| `Downloads.DeliveriesRebuildFile` | src/peer/state.rs:152-200 | the same after any sequence of deliveries of arbitrary data |
| `Pools.IndexedConnections.Insert` | src/peer/pool.rs:29-38 | map update, reusing the last freed slot |
| `Pools.IndexedConnections.Remove` | src/peer/pool.rs:54-63 | map deletion, returning what was there |
| `Pools.PoolAfter` | src/peer/pool.rs:29-63 | after any sequence of inserts and removals the pool is sound and equals the plain map |
| `Pools.SlotsConserved` | src/peer/pool.rs:29-63 | slots = live + free + inserts that overwrote a connection |
| `Pools.SlotsWithinPeak` | src/peer/pool.rs:29-63 | the slot count lies between the peak load and the peak load plus the lost slots |
| `Pools.FreshInsertsNeverLeak` | src/peer/pool.rs:29-63 | with only fresh inserts, the slot count is the peak number of live connections |
| `Bitfields.SetBitChangesOne` | src/peer/message.rs:77-92 | setting a bit of an integer of any width changes that bit only |
| `Bitfields.FirstPieceInHighBit` | src/peer/message.rs:77-92 | a byte holds eight pieces, the first in its most significant bit |
| `Bitfields.WithPieceChangesOne` | src/peer/message.rs:77-92 | setting a piece changes that piece only, and nothing past the end |
| `Bitfields.Bitfield.SetPiece` | src/peer/message.rs:86-92 | the update in place does so |
| `Wire.MessageRoundTripIff` | src/peer/message.rs:43-68 | deserializing a serialized message gives it back exactly when its length fits the 32-bit prefix |
| `Wire.StandardBytes` | src/peer/message.rs:43-50 | the length prefix is written most significant byte first and each kind by its number in BEP 3 or BEP 10 |
| `Wire.StandardFields` | src/peer/message.rs:165-175 | so are the fields of requests and pieces, in their order |
| `Wire.DeserializeIff` | src/peer/message.rs:52-68 | a buffer is taken for a message exactly when it begins with that message as it is serialized |
| `Wire.SlicePanicsIff` | src/peer/message.rs:52-68 | the payload slice panics exactly on a zero prefix before a known kind |
| `Wire.ReadOneIff` | src/peer/client.rs:1014-1045 | the head of a stream is a message exactly when, after any keep-alives, it is that message as it is serialized |
| `Wire.ReadRawMessage` | src/peer/client.rs:1014-1045 | the reading loop skips keep-alives and returns the first message, the end, or an error |
| `Wire.StreamRoundTrip` | src/peer/client.rs:1014-1045 | reading any serialized messages, with keep-alives anywhere, gives exactly those messages |
| `Wire.CutStreamYieldsPrefix` | src/peer/client.rs:1014-1045 | a stream cut at any byte gives a prefix of the messages and then the end |
| `Wire.UnknownKindMalformed` | src/peer/client.rs:1014-1045 | a whole frame of an unknown kind ends the reading with an error, after the messages before it |
| `Wire.RequestRoundTripIff` | src/peer/message.rs:130-161 | a request for a block is parsed back exactly when its three fields fit 32 bits |
| `Wire.PieceRoundTrip` | src/peer/message.rs:165-175 | a piece response is read back as the block and bytes it was built from |
| `Connections.PeerConnection.GetTimedOutRequests` | src/peer/connection.rs:78-90 | lists exactly the requests older than the timeout, each once |
| `Connections.PeerConnection.HandleMessage` | src/peer/client.rs:253-342 | the effect of every message kind but a piece, as `Connections.Process` says |
| `Connections.PeerConnection.HandleExtended` | src/peer/client.rs:379-431 | handshakes set the id, requests queue a response, and nothing else changes |
| `Connections.RetainedIsFiltered` | src/peer/client.rs:253-342 | a cancel removes every equal queued request and no other |
| `Connections.RetainedJoins` | src/peer/client.rs:326-337 | a cancel works on any two parts of the queue apart, so it leaves the order of what stays |
| `Connections.RequestQueued` | src/peer/client.rs:344-362 | a request joins the end of the queue exactly when we do not choke the peer, it is for at most 16384 bytes and fewer than 16 are queued |
| `Connections.CancelWithdraws` | src/peer/client.rs:326-337 | a cancel leaves what was queued before and after the request it names, and nothing else changes |
| `Connections.ProcessKeepsLimits` | src/peer/client.rs:344-362 | no message touches the pending requests; the upload queue stays within 16 requests of at most 16384 bytes |
| `Connections.UnchokedIffLastWord` | src/peer/client.rs:258-271 | after any messages, a peer is held to be choking exactly if its last word on choking was not an unchoke |
| `Connections.KnownPieces` | src/peer/client.rs:284-318 | after a bitfield, the pieces a peer is known to have are those in it and those announced since, within its length |
| `Connections.NoBitfieldNothingKnown` | src/peer/client.rs:284-302 | pieces announced without a bitfield are never noted |
| `Connections.AnnouncedPeerIsAnswered` | src/peer/client.rs:379-431 | after a handshake with a size, a request queues the matching response |
| `Connections.PeerIsAnsweredAtItsId` | src/peer/client.rs:379-431 | whatever id a handshake names, and whatever else it holds, a later request is answered with that id as first byte, and the peer reads the slice or a refusal |
| `Connections.FetcherIsNeverAnswered` | src/peer/metadata.rs:257-275 | after this client's own sizeless handshake, no sequence of its requests changes anything at the peer |
| `Clients.BitTorrentClient.Choose` | src/peer/client.rs:614-642 | picks and marks a batch as `Sections.Choose` says |
| `Clients.BitTorrentClient.PickBlocks` | src/peer/client.rs:629-641 | the loop picks and marks up to n blocks, one at a time |
| `Clients.BitTorrentClient.DropUnsent` | src/peer/client.rs:681-697 | removes unsent requests from the pending and the requested blocks together |
| `Clients.BitTorrentClient.HandleMessage` | src/peer/client.rs:253-342 | a message changes its own connection only |
| `Clients.BitTorrentClient.KeepAlive` | src/peer/client.rs:752-784 | a keep-alive is sent exactly when nothing was sent for two minutes or ever, and its time is noted on that connection only |
| `Clients.BitTorrentClient.Disconnect` | src/peer/client.rs:237-246 | unmarks everything the connection had pending, and removes it |
| `Clients.BitTorrentClient.ServeUploads` | src/peer/client.rs:970-980 | sends exactly what `Sections.Answers` says, and counts it, until a write fails |
| `Clients.BitTorrentClient.FlushMetadata` | src/peer/client.rs:985-1008 | takes all queued metadata responses, in order, and leaves the queue empty |
| `Sections.BatchIsFresh` | src/peer/client.rs:614-642 | the blocks of a batch are distinct, were eligible, are now requested, and are at most n |
| `Sections.ShortBatchLeavesNothing` | src/peer/client.rs:629-641 | a batch falls short only when the peer has no eligible block left |
| `Sections.BatchInOrder` | src/peer/client.rs:629-641 | a batch is in the order of the rotated scan and leaves out nothing that comes before one of its blocks |
| `Asking.ChooseTakesOffered` | src/peer/client.rs:614-642 | only blocks of pieces in the bitfield of the peer are chosen, missing, unmarked and unstored, and the pipeline reaches ten or nothing such is left |
| `Asking.ChooseInOrder` | src/peer/client.rs:614-642 | they come in the order of the scan from the given piece |
| `Asking.NextChoosesIff` | src/peer/client.rs:562-642 | the section does something exactly when the worker is in its main loop, interested and not choked, with fewer than ten pending and such a block to be had; it marks and picks those blocks and changes nothing else |
| `Asking.TermsAreWhatWasHeard` | src/peer/client.rs:253-342 | in every run what a live worker holds of its peer (choking, pieces, id) is what the messages handled since it joined make of a new connection |
| `Asking.PicksIffUnchoked` | src/peer/client.rs:562-642 | in every run a worker picks blocks exactly when its peer has unchoked it and not choked it since, and there is room for a block it offers |
| `Sections.UploadedIsWhatWasSent` | src/peer/client.rs:970-980 | the upload counter grows by exactly the bytes sent; every message sent answers a request from a finished piece |
| `Upkeep.RepliesAreSent` | src/peer/client.rs:970-980 | the replies due, one for each range inside a finished piece, are sent in order until a write fails, and the worker goes on exactly if none does |
| `Upkeep.OldestUploadsTaken` | src/peer/client.rs:952-964 | up to four queued uploads are taken, oldest first, and the others stay in order |
| `Upkeep.ResponsesTaken` | src/peer/client.rs:985-998 | all queued metadata responses are taken, in order |
| `Upkeep.ExpireTakesOverdue` | src/peer/connection.rs:78-98 | exactly the requests sent more than 15 seconds ago leave the pending list for the hand of the worker |
| `Upkeep.AddedAtTheirTimes` | src/peer/connection.rs:64-68 | each block of a batch enters the pending list with its own time |
| `Upkeep.BatchGoesOut` | src/peer/client.rs:653-706 | of a batch exactly the requests written before the first failed write stay pending and are counted; the others are unmarked |
| `Upkeep.KeepAliveIff` | src/peer/client.rs:752-784 | a keep-alive is due exactly when nothing was sent for 120 seconds, or ever |
| `Upkeep.ClosingIff` | src/peer/client.rs:103-250 | a worker leaves its main loop exactly on a piece message under eight bytes, a discarded piece, an upload that cannot be written, or its own decision |
| `Upkeep.CountersMove` | src/peer/stats.rs:5-15 | the shared counters move by what the worker counts, and the depth is the deepest pipeline counted |
| `Protocol.OthersUntouched` | src/peer/client.rs:103-250 | a section of one worker leaves every other address's connection, worker and held blocks alone |
| `Safety.NextKeepsInv` | src/peer/client.rs:103-250 | every section of every worker keeps the invariant, whatever arrives and whichever writes fail |
| `Safety.AnsweredWithinSent` | src/peer/stats.rs:5-15 | responses plus timeouts never exceed requests sent |
| `Runs.EveryRunIsSafe` | src/peer/client.rs:607-749 | in every reachable state: no orphaned request, pending plus picked blocks at most 10 although a batch may have 16, counters consistent, upload queues bounded |
| `Runs.NeverWedged` | src/peer/state.rs:60-98 | in every reachable state where nobody holds a block, nothing is marked and any peer with a missing piece is offered a block |
| `Runs.EveryRunBuildsTheFile` | src/peer/state.rs:300-311 | in every reachable state finished pieces are the file's, and a complete download is the file |
| `Runs.FinishedForever` | src/peer/state.rs:152-200 | a piece finished at some point of a run is finished ever after |
| `Runs.NeverAsked` | src/peer/client.rs:614-628 | in every run, a peer that sends no bitfield has nothing pending, picked or sent |
| `Losses.VanishesIffPanics` | src/peer/client.rs:103-250 | in either build, a section ends its worker exactly when it reads a request text on which the reader panics or never returns, stores a block that panics, or is the worker's own end |
| `Losses.HoldersAreAlive` | src/peer/client.rs:236-246 | in runs without such reads and stores every requested block is held where a live worker will answer for it |
| `Losses.PanicKeepsAliveIff` | src/peer/client.rs:236-246 | a panic keeps that exactly when no block pending with the worker, still requested and not the one being stored, is without another live holder |
| `Losses.AliveThroughoutIff` | src/peer/client.rs:236-246 | all through a run every requested block has a live holder exactly when no panic of the run strands one |
| `Losses.LostForGood` | src/peer/state.rs:75-98 | a block that is requested and pending only with a dead worker stays so, whatever happens, unless a peer sends it unasked |
| `Losses.ReachableLoss` | src/peer/client.rs:434-497 | from the start, one message for a piece out of range leads to such a block |
| `Losses.LossIsHarmful` | src/peer/client.rs:434-497 | and that run has a panic that strands it |
| `Losses.EarlyEndLeavesConnection` | src/peer/client.rs:109-131 | a write that fails before the main loop leaves a connection without a worker |
| `Losses.NeverDialledAgain` | src/peer/client.rs:802-814 | a connection without a worker stays in the table unchanged, so its address is never dialled again |
| `Losses.NextMannedIff` | src/peer/client.rs:103-250 | a section leaves every connection its worker exactly when it is no such read or store and no end before the main loop |
| `Losses.MannedIff` | src/peer/client.rs:103-250 | after a run every connection in the table has a worker exactly when the run has no such section |
| `Exclusive.CompleteKeepsAssigned` | src/peer/state.rs:152-200 | a call that discards no unfinished piece leaves every assigned block marked, stored or finished |
| `Exclusive.NextKeepsExcl` | src/peer/client.rs:607-749 | every section but a discard keeps exclusive assignment and the exact account |
| `Exclusive.HarmlessKeepsExcl` | src/peer/client.rs:434-749 | so does every discard that is not harmful |
| `Exclusive.ExclusiveAssignment` | src/peer/client.rs:607-749 | in runs without harmful discards no block is held by two peers, every held block is marked, stored or finished, and a worker between operations has sent = responses + timeouts + pending |
| `Exclusive.AssignedThroughoutIff` | src/peer/client.rs:607-749 | held blocks stay assigned all through a run exactly when it has no harmful discard |
| `Exclusive.NoDiscardsNoHarm` | src/peer/state.rs:186-198 | a run in which no unfinished piece fails its hash has none |
| `Exclusive.DiscardKeepsAssignedIff` | src/peer/state.rs:186-198 | a discard leaves held blocks assigned exactly when those of its piece are marked and none is the block being stored |
| `TwoHolders.DiscardBreaksExclusivity` | src/peer/state.rs:186-198 | for any SHA-1 and any listed hash that some single byte misses, a run after which two peers hold one block |
| `TwoHolders.FirstDiscardBreaksIt` | src/peer/state.rs:186-198 | the first discard of that run is harmful: assignment is exclusive before it and broken after it |
| `Transfer.TileIsServed` | src/peer/state.rs:276-293 | every block of a finished piece fits the wire and the upload limit and is served exactly |
| `Transfer.RequestedBlocksArrive` | src/peer/client.rs:576-604 | a pipeline of requests over the wire, with keep-alives anywhere, queued, flushed and answered over the wire, brings back exactly those blocks and bytes |
| `Transfer.TransferInAnyOrder` | src/peer/client.rs:434-531 | true blocks in any order, repeated, mixed with any other calls, with any true blocks stored before: the piece is kept once each has come and not before; the last one reports it verified |
| `Transfer.EveryBlockCanCome` | src/peer/client.rs:947-983 | each block of a finished piece can be fetched this way |
| `Transfer.PieceCrossesTheWire` | src/peer/client.rs:434-531 | a piece fetched from a peer that has verified it ends up with the same bytes, exactly once every block has come or was there before |
| `Transfer.AnnouncedPiecesAreFinished` | src/peer/message.rs:102-120 | the bitfield sent over the wire tells the receiver exactly the finished pieces, spare bits zero |
| `Bencode.PrefixStability` | src/bencode_parser/parser.rs:33-134 | a parsed value comes out the same whatever bytes follow it |
| `Bencode.ParseValueStable` | src/bencode_parser/parser.rs:33-134 | what is parsed depends only on the bytes consumed |
| `Bencode.ParseIff` | src/bencode_parser/parser.rs:171-186 | a source is accepted exactly when it is cut, to its end, into parts that are one value each, in order |
| `Bencode.LeftoverRejected` | src/bencode_parser/parser.rs:171-186 | values followed by a byte no value begins with, a newline say, are rejected |
| `Grammar.ParseValueIff` | src/bencode_parser/parser.rs:33-134 | the parser reads a value off the first n bytes exactly when these are a legal text for it, as a grammar apart from the parser has it: signs, leading zeros, ranges, lengths, nesting, repeated keys |
| `Grammar.SourceIff` | src/bencode_parser/parser.rs:171-186 | a source is accepted exactly when it is made of such texts and nothing else |
| `Bencode.ParsedRawsReparse` | src/bencode_parser/parser.rs:93-134 | the raw bytes of every dictionary, at every depth, parse alone to that dictionary, so to the same hash |
| `Scanner.NestingWithinText` | src/bencode_parser/parser.rs:75-134 | the parser is never inside of more lists and dictionaries at once than the text has bytes |
| `Scanner.OpeningsNest` | src/bencode_parser/parser.rs:75-134 | on opening bytes alone it is inside of as many as there are bytes, and then rejects the text |
| `Encoding.EncodedParses` | src/bencode_parser/parser.rs:33-134 | the parser reads an encoded tree back, with anything after it, exactly when its numbers are in range |
| `Scanning.FindBencodeEnd` | src/peer/metadata.rs:347-397 | the scanning loop, in a build that traps overflow and in one that wraps, comes to what its steps come to: an end, none, a trap, or no return |
| `Scanning.FindForeverIff` | src/peer/metadata.rs:347-397 | the loop never returns exactly when some position and depth come back |
| `Scanning.FindIsTheLoop` | src/peer/metadata.rs:347-397 | whenever the loop stops, after however many turns, that is the outcome |
| `Scanning.BuildsAgree` | src/peer/metadata.rs:347-397 | as long as no token exhausts a counter, both builds return what `Scanner.Scan` says |
| `Scanning.TrapsIffReached` | src/peer/metadata.rs:347-397 | a trapping build always returns, and traps exactly when a token that exhausts a counter is reached |
| `Scanning.ExhaustedGoesOn` | src/peer/metadata.rs:347-397 | at that token a wrapping build goes on from the wrapped place, whatever that leads to |
| `Scanning.TrappedIff` | src/peer/metadata.rs:347-397 | on any text the scan traps exactly when the build does and the loop comes to a token that takes a counter out of range |
| `Scanning.PastTheEndIff` | src/peer/metadata.rs:347-397 | in either build the answer is past the data exactly when the loop comes to a string outside every container that takes it there, wrapped or not |
| `Scanning.LoopingNeverEnds` | src/peer/metadata.rs:376-391 | a 22-byte text on which a wrapping build comes back to where it was, and a trapping one traps |
| `Scanning.ReturningEndsEarly` | src/peer/metadata.rs:376-391 | a text whose wrapped answer is its digits alone |
| `Scanner.ScannerAgreesWithParser` | src/peer/metadata.rs:347-397 | whenever the parser succeeds, with anything following, the scanner gives the same end, exactly when the nesting fits its counter |
| `Scanner.ScannerFindsParsedValue` | src/peer/metadata.rs:347-397 | so any value shorter than 4 GiB, and with it any a peer message can carry, is found whole |
| `Scanner.OverflowsIffReached` | src/peer/metadata.rs:347-397 | a counter gives out exactly when a token that exhausts it is reached past others that do not end the scan |
| `Scanner.PastTheEndIffReached` | src/peer/metadata.rs:347-397 | the answer lies past the data exactly when a string outside every container, declared longer than what is left, is reached so |
| `Scanner.OthersStayInBounds` | src/peer/metadata.rs:347-397 | a text that begins with neither a string nor a closing byte is answered inside its bounds while the counters hold |
| `MetadataMessages.RequestRoundTrip` | src/peer/metadata.rs:316-329 | a request is read back with its index, whatever follows, and is not taken for data |
| `MetadataMessages.DataRoundTripIff` | src/peer/metadata.rs:400-429 | a data response is read back with the same index and bytes, exactly when its total size fits a signed 64-bit integer; it is no request |
| `MetadataMessages.RejectIsRefused` | src/peer/metadata.rs:558-569 | a reject is an error to the fetcher and no request |
| `MetadataMessages.ResponseRoundTrip` | src/peer/client.rs:403-425 | a served piece is read back as that slice; an index past the end, or no dictionary, as a refusal |
| `MetadataMessages.HandshakeYieldsIdIff` | src/peer/metadata.rs:257-275 | a printed handshake yields our id exactly when it carries a size that fits 64 bits |
| `MessageTrees.HandshakeIdRead` | src/peer/metadata.rs:467-489 | of any encoded handshake the stored id is the number under `ut_metadata` in `m`, modulo 256, and there is none exactly when that is missing |
| `MessageTrees.AnnouncementRead` | src/peer/metadata.rs:277-313 | of any encoded handshake the fetching side takes that id and the size modulo 64 bits, and fails exactly when one is missing |
| `MessageTrees.RequestRead` | src/peer/metadata.rs:491-514 | any encoded tree is a request exactly when it is a dictionary of type 0 with an index, sent to the given id; the index is taken modulo 32 bits |
| `MessageTrees.PieceRead` | src/peer/metadata.rs:400-452 | and a piece, with what follows it, exactly when of type 1 with an index; type 2 is an error |
| `MessageTrees.JunkRefused` | src/peer/metadata.rs:400-452 | a text that is no bencode is an error to the fetcher and no request |
| `MetadataMessages.ReaderPanicsIff` | src/peer/metadata.rs:400-411 | on every text and in either build, the readers panic exactly when the loop comes to a token that exhausts a counter (trapping only) or takes it past the data, and hang exactly when it comes back to a place |
| `MetadataMessages.BuildsReadAlike` | src/peer/metadata.rs:400-411 | if no token that exhausts a counter is reached, both builds read alike, never hang, and panic exactly on a reached overdeclared string |
| `MetadataMessages.TrappingPanicsIff` | src/peer/metadata.rs:400-411 | a trapping build never hangs, and panics exactly when either kind of token is reached |
| `MetadataMessages.StringTextPanicsIff` | src/peer/metadata.rs:376-391 | a text that begins with a string is decided by its declared end alone: past the text, trapped, or past the text after wrapping |
| `MetadataMessages.DictionaryTextInBounds` | src/peer/metadata.rs:347-397 | a text that opens as a dictionary is never sliced past its end while the counters hold |
| `MetadataMessages.ParsableNeverPanics` | src/peer/metadata.rs:491-514 | whatever the parser accepts is read in either build, without a panic or a hang |
| `MetadataMessages.PanicExample` | src/peer/metadata.rs:491-514 | a four-byte text that makes both readers panic in either build |
| `MetadataMessages.ClosingPanicExample` | src/peer/metadata.rs:369-391 | so does the text `ed9:ab`, which begins with no string |
| `MetadataMessages.HangExample` | src/peer/metadata.rs:491-514 | a request of 23 bytes that keeps a wrapping build busy for ever and makes a trapping one panic |
| `MetadataMessages.WrapExample` | src/peer/metadata.rs:491-514 | a request a wrapping build ignores and a trapping one panics on |
| `MetadataFetch.FetchMetadata` | src/peer/metadata.rs:133-251 | the loop does what `MetadataFetch.Run` says, with the same requests |
| `MetadataFetch.ReceiveHandshake` | src/peer/metadata.rs:277-313 | the loop passes over everything but handshakes, and the first handshake or failure decides |
| `MetadataFetch.PrintedHandshakeAnnounces` | src/peer/metadata.rs:257-275 | a printed handshake announces our id and its size, exactly when it carries one that fits 64 bits |
| `MetadataFetch.RoundEnds` | src/peer/metadata.rs:144-224 | a round ends the fetch exactly on a request that cannot be written or a message that is an error, panics or hangs |
| `MetadataFetch.HowItEnds` | src/peer/metadata.rs:224-251 | the fetch gives up only after three failed waits since the last new piece; what it returns is bencode, no longer than announced |
| `Retries.LostIsForgotten` | src/peer/metadata.rs:206-218 | after a failed wait nothing is awaited, and no piece not held counts as asked for |
| `Retries.LostIsAskedAgain` | src/peer/metadata.rs:144-218 | the round after a failed wait asks for the first piece missing |
| `Retries.SucceedsIffPatient` | src/peer/metadata.rs:133-251 | whatever answers are lost and whatever else arrives, a fetch otherwise answered succeeds exactly when each piece is answered before three waits fail with no answer between; it asks for the next missing piece whenever none is awaited |
| `Retries.FewLostSucceeds` | src/peer/metadata.rs:133-251 | so it succeeds if it is answered once for each piece and never three waits fail in a row |
| `MetadataFetch.FetchGuarantees` | src/peer/metadata.rs:133-251 | the received count is the number of filled slots, no piece is ever missing at the end, a success is the responder's dictionary, and the retry budget holds |
| `MetadataFetch.PieceNeverMissing` | src/peer/metadata.rs:226-234 | the branch for a missing piece is unreachable |
| `MetadataFetch.FetchReturnsDictionary` | src/peer/metadata.rs:133-251 | if every metadata piece is the responder's, in any order and with anything in between, a successful fetch returns its dictionary |
| `MetadataFetch.FetchCompletes` | src/peer/metadata.rs:133-251 | without errors the fetch succeeds once every piece has come |
| `MetadataFetch.RetryBudget` | src/peer/metadata.rs:144-224 | at most 3 times the number of pieces rounds bring an error or a new piece |
| `MetadataFetch.RequestsInOrder` | src/peer/metadata.rs:146-168 | as long as no wait fails, pieces are asked for in increasing order, each once |
| `Torrents.RawInfoGivesSameTorrent` | src/torrent.rs:69-192 | the raw info dictionary of a torrent file gives back the same name, piece length, hashes, size and length; its hash is the infohash |
| `Torrents.FileAcceptedIff` | src/torrent.rs:69-133 | a file is accepted exactly when its info dictionary is and it has an announce text, a creation date and a single length |
| `Torrents.ManyFilesTurnedDown` | src/torrent.rs:85-133 | a concrete torrent of a list of files is turned down as a file and accepted as an info dictionary |
| `Torrents.FilesTotalIs` | src/torrent.rs:103-120 | the total of the listed files is the sum of their lengths modulo 64 bits, or traps exactly when the sum does not fit |
| `Torrents.InfoDictPanicsIff` | src/torrent.rs:136-192 | reading an info dictionary panics exactly when overflow traps, everything else is there, and a list of files without a single length does not fit 64 bits |
| `Torrents.FileNeverPanics` | src/torrent.rs:69-133 | a torrent file is never read with a panic |
| `TorrentTrees.TorrentFileRead` | src/torrent.rs:69-133 | any encoded torrent file gives exactly the torrent its entries describe, field by field, or is turned down |
| `TorrentTrees.InfoDictRead` | src/torrent.rs:136-192 | so does any encoded info dictionary, whose size is its length or the sum of its listed files |
| `TorrentTrees.TrailingTurnedDown` | src/torrent.rs:69-72 | a source followed by something no value begins with is turned down |
| `Torrents.HashList` | src/torrent.rs:99-102 | the i-th hash is the i-th 20 bytes, a short rest dropped |
| `Torrents.FetchedTorrentIsTheSame` | src/torrent.rs:136-192 | a torrent whose info dictionary was fetched from a peer serving it is the torrent of the file, whatever else was sent |
| `Torrents.AnsweredFetchSucceeds` | src/peer/metadata.rs:133-251 | a fetch succeeds once every piece has been answered, in any order and with repeats |
| `Torrents.ExchangeAnswers` | src/peer/client.rs:379-431 | a request written to the wire, read, answered, and its answer written and read, is the responder's slice |
| `Torrents.AsksInTurn` | src/peer/metadata.rs:146-168 | answered each in turn, the fetcher asks for every piece once, in order |
| `Torrents.TorrentCrossesTheWire` | src/torrent.rs:136-192 | so the fetcher's own requests, over the wire to a peer that knows its id, bring back the same torrent |

## Left out

- Sockets, the async runtime, channels, sleeps and logging: a write succeeds or fails freely, and a section of a worker is one atomic step.
- The main loop of a worker as one method: `Protocol` lets its operations begin in any order, which covers every order the loop can produce.
- Liveness: nothing is said of how long a peer takes, or of fairness between workers.
- The 68-byte handshake, compact peer lists, trackers, magnet links, the command line and the monitoring loops: fixed layouts or input and output around the core.
- `pick_piece`, `mark_requested`, `unmark_piece` and `complete_piece`, and the set of requested pieces they keep: the client never calls them.
- Floating-point statistics, progress texts, diagnostics and the wording of errors.
- Failures of the file system while writing the file; the bytes written are modelled.
- The conversion of parsed values to owned ones: it copies every field and is the identity on the model's values.
- Checks on message size before reading, and the 64-bit counters' wrap-around.
- A peer whose info dictionary does not match the infohash: the client does not compare them, so `FetchReturnsDictionary` speaks of peers that send pieces of one dictionary.
- Pools.IndexedConnections.IterMut: the connections are listed; that a caller may change them follows from their being objects.
- Torrents.TorrentCrossesTheWire: the serving peer must know the fetcher's id; this client's own fetcher never tells it (`FetcherIsNeverAnswered`).
- Connections.PeerConnection.GetTimedOutRequests: the order in which a hash map lists its keys is left open.
- MetadataFetch.FetchMetadata: keep-alives and the per-message timeout are folded into one result for each wait.
- Bencode.ParseValue: calls may nest without limit; where a real stack would run out (`OpeningsNest`) is not modelled, nor is an allocation that fails.
