# Verified model of a BitTorrent download client

A Dafny model of the parts of the client where mistakes are easy: the concurrent pool that finds a peer, the
session that fetches one piece from it, the wire format between them, and the arithmetic that says where a piece
lies in the file. `dafny verify dfyconfig.toml` checks everything.

## What is modelled

**The peer candidate pool** (`PoolModel`, `PoolMeters`, `PoolInvariants`, `PoolRuns`, `PoolTheorems`,
`PoolProgress`, `PoolExhaustion`, `PoolCompletion`, `PoolOutcomes`, `PoolCancellation`, `PoolStart`,
`DialFirst`, `Endpoints`). The job feeder, the dial workers, the goroutine that closes `results`, the
collector, any number of concurrent `Next` calls and the one execution of the `Close` body are program
counters of a labelled transition system; the channels, the semaphore and the context are its shared state.
Each channel operation, dial outcome, connection close and context check is a step, and a `select` with
several ready branches is a choice between steps. The number of endpoints, of calls and of steps and the
interleaving are arbitrary; cancellation may happen before any step. Consequences of the code that the model
keeps: after cancellation a worker may still take a job, get a slot, dial and deliver; and `Next` gives its
slot back before it looks at the context again, so a connection it then closes no longer counts against the
budget.

The proofs rest on *meters*: a meter charges each actor a number that depends on its program counter alone, so
that a step changes a total by what it changes one actor's charge. Slot conservation, ownership of connections,
the ledger of dials and the termination measures are all totals of meters.

**The session** (`SessionModel`, `Sessions`, `SessionTrace`, `FetchTheorems`, `SessionCalls`,
`SessionHistory`, `SessionStutter`, `FetchSuccess`, `AnyWorld`, `FetchErrors`, `HonestPeer`). `SessionModel`
says, as functions of the peer's byte stream and of the answers of the outside world (is the context still
live, could the deadline be set, did the write succeed, was the block accepted), what `Read`, `waitUntilReady`
and `FetchPiece` return, what they leave in the session, what they leave unread and everything they do on the
connection, in order. The class `Sessions.Session` has the loops and field updates of the Go code and its
methods are proved to compute those functions; `Read` and `FetchPiece` are listed below, the loops inside them
are methods of their own with the same kind of contract. The theorems are then about the functions, for every
stream and every world: a protocol monitor (`SessionTrace.Permits`) that permits every event of every run, and
what follows from it.

**The wire format and the bitfield** (`Bytes`, `Wire`, `WireFormat`, `Writing`, `Payloads`, `Bitfields`): the
peer messages of BEP 3 (The BitTorrent Protocol Specification), section "peer messages".

**Piece and block layout, and the download command's core** (`Tiling`, `Layouts`, `Download`): BEP 3, section
"info dictionary".

**The context watcher** (`Watchers`): the goroutine that `watchContext` starts, its stop function and the
deadline they share, as a second, small transition system.

Where code and documentation disagree the model follows the code: README.md:15 and README.md:59-60 of the client
say that only pieces that fit in one 16 KiB block are handled, but internal/peerconn/session.go:171-233 fetches a
piece of any length below 2^32 block by block.

## Model

| member | source | states |
|---|---|---|
| PoolRuns.StepKeepsInv | internal/peerconn/pool.go:114-308 | every enabled step of every actor keeps slot conservation, single ownership, the ledger of dials, queue order, the phases of shutdown and the receipts of Next and Close |
| PoolRuns.ReachableInv | internal/peerconn/pool.go:66-107 | hence they hold in every state of every run |
| PoolTheorems.OneOwner | internal/peerconn/pool.go:114-148 | each connection a dial opened is closed, or in exactly one place: with one worker, the collector, one queue position, one Next, Close, or one caller; the pool closes it at most once and never after returning it; a connection no dial opened is nowhere |
| PoolTheorems.ReturnedIsCallersForGood | internal/peerconn/pool.go:109-133 | once Next returned a connection, no continuation of the run closes it or returns it again |
| PoolTheorems.CloseLeavesNothing | internal/peerconn/pool.go:135-148 | once Close has returned and no Next is in flight, every connection is closed or a caller's and every slot is free |
| PoolTheorems.SlotConservation | internal/peerconn/pool.go:295-308 | the semaphore holds exactly one token for each worker, collector, queued candidate, Next or Close call that still owes one, and never more than four |
| PoolTheorems.ReleaseNeverBlocks | internal/peerconn/pool.go:306-308 | releaseSlot always finds a token |
| PoolTheorems.BudgetHolds | internal/peerconn/pool.go:50-51 | dials in progress and unclaimed connections together never exceed four, nor dials MaxConcurrent |
| PoolTheorems.CollectedAtMostEndpoints | internal/peerconn/pool.go:200-211 | the collector receives at most one result per endpoint |
| PoolTheorems.CollectorNeverBlocks | internal/peerconn/pool.go:285-290 | whenever the collector holds a success the candidates channel, of capacity min(4, n), has room |
| PoolTheorems.ReadyBranches | internal/peerconn/pool.go:202-292 | each select of the feeder, the workers and the collector can take exactly its ready branches, also those other than cancellation after the context has ended |
| PoolOutcomes.EveryOutcomeIsReported | internal/peerconn/pool.go:238-262 | in every run each outcome of a dial, read off the steps (endpoint with connection, or endpoint with error), is collected, still with its worker, or dropped unsent, as often as it occurred |
| PoolCancellation.ReturnsContextErrorExactly | internal/peerconn/pool.go:114-133 | a call of Next that returns does so with the context's error exactly if the context has ended; a candidate or exhaustion only while it is live |
| PoolCancellation.CancelledCallsFail | internal/peerconn/pool.go:109-133 | once the context has ended, every call that has not returned, and every later one, can only return the context's error |
| PoolCancellation.LateCallsReceiveNothing | internal/peerconn/pool.go:115-117 | a call made after the context has ended takes no candidate |
| PoolCancellation.GivenUpCandidatesAreClosed | internal/peerconn/pool.go:127-131 | a candidate whose call returned the context's error is closed |
| PoolProgress.InternalStepDecreases | internal/peerconn/pool.go:200-293 | each step of a pool goroutine decreases both work measures |
| PoolProgress.OtherStepsAddNoPoolWork | internal/peerconn/pool.go:114-148 | no step of Next, of Close or of the application adds to the goroutines' work |
| PoolProgress.MoveDecreases | internal/peerconn/pool.go:114-293 | each step that is not a new call or a cancellation decreases the work of goroutines and calls together |
| PoolProgress.PoolMoves | internal/peerconn/pool.go:200-304 | unless a worker waits for a slot, some goroutine can move until all have returned |
| PoolProgress.CancelledPoolFinishes | internal/peerconn/pool.go:135-148 | a cancelled pool without an enabled goroutine step has finished: feeder, workers and collector returned, both channels closed |
| PoolProgress.StuckMeansFull | internal/peerconn/pool.go:295-304 | an uncancelled pool stops early only if a worker waits for a slot and all four belong to candidates that are queued or just received by Next |
| PoolProgress.QuiescentCallsReturned | internal/peerconn/pool.go:109-148 | when nothing can move, every Next has returned, and so has Close if it was called: no deadlock |
| PoolProgress.RunsAreBounded | internal/peerconn/pool.go:114-293 | the length of a run is bounded by the work left and the calls made in it |
| PoolProgress.PoolStepsAreBounded | internal/peerconn/pool.go:200-293 | goroutine steps are bounded by the initial work alone |
| PoolProgress.CallsReturn | internal/peerconn/pool.go:109-148 | from any reachable state all calls made so far return after boundedly many moves, whatever the interleaving and whenever the context ends |
| PoolExhaustion.ExhaustErrReadWhenFinal | internal/peerconn/pool.go:265-293 | when Next reads exhaustErr it is the recorded failures in collection order and no continuation changes it |
| PoolExhaustion.AtMostOneDial | internal/peerconn/pool.go:200-211 | in every run each unique endpoint is dialled at most once |
| PoolExhaustion.ExhaustionIsComplete | internal/peerconn/pool.go:109-133 | if some Next returned ErrNoMoreCandidates, every endpoint was dialled and reported exactly once; successes went to calls of Next, one each, in collection order; the returned errors are the failures, in collection order; the rest are cancellations |
| PoolOutcomes.ExhaustionMatchesDials | internal/peerconn/pool.go:109-133 | on exhaustion the candidates received are exactly the connections that dials of the run opened, and the returned errors exactly those of the dials that failed other than by cancellation |
| PoolCompletion.DiscoveryCompletes | internal/peerconn/pool.go:200-293 | an uncancelled pool that has come to rest with room in the queue has finished: every endpoint dialled and reported exactly once, every success received or queued, in collection order |
| PoolCompletion.SurplusCallsAreExhausted | internal/peerconn/pool.go:109-133 | when an uncancelled pool has come to rest, min(calls, successes) calls of Next returned a candidate and exactly the surplus calls returned ErrNoMoreCandidates |
| DialFirst.FirstReturns | internal/peerconn/conn.go:30-46 | the one Next of DialFirst always returns; uncancelled, with a candidate exactly if some dial succeeded |
| DialFirst.FirstResult | internal/peerconn/conn.go:30-46 | in every state in which it has returned uncancelled, also with dials still running: a candidate is the first success collected; exhaustion comes only without any success, with every endpoint dialled once and the failures as its error |
| PoolOutcomes.FirstMatchesDials | internal/peerconn/conn.go:30-46 | uncancelled, DialFirst returns a candidate if and only if some dial of the run has succeeded, and one that such a dial opened |
| DialFirst.OthersAreClosed | internal/peerconn/conn.go:30-46 | the deferred Close returns, every opened connection is then closed except the one returned, and no slot is held |
| PoolStart.NewPoolIsValid | internal/peerconn/pool.go:66-107 | accepted arguments give all unique endpoints, min(MaxConcurrent, n) workers and a queue of capacity min(4, n) |
| PoolStart.RejectedArguments | internal/peerconn/pool.go:150-181 | exactly which arguments are rejected |
| PoolStart.NoAddressDialedTwice | internal/peerconn/pool.go:183-211 | no run dials the same address and port twice, also not under an IPv4-mapped name |
| Endpoints.UniqueEndpoints | internal/peerconn/pool.go:184-198 | the loop computes the normalised first occurrences |
| Endpoints.UniqueIsTheSetOfEndpoints | internal/peerconn/pool.go:183-198 | no duplicates; exactly the normalised endpoints of the input |
| Endpoints.MergedExactly | internal/peerconn/pool.go:190 | two endpoints are merged if and only if they have the same port and the same address, or the same IPv4 address, plain or mapped into ::ffff:0:0/96 |
| Endpoints.UniqueKeepsEndpoints | internal/peerconn/pool.go:183-198 | every endpoint of the input is in the output with its port, as itself or under its IPv4 address; nothing else is; no two outputs are the same endpoint |
| Endpoints.FirstOccurrenceOrder | internal/peerconn/pool.go:183-198 | the output keeps first-occurrence order |
| Endpoints.UniqueIsFixed | internal/peerconn/pool.go:183-198 | deduplicating again changes nothing |
| Sessions.Session.NewSession | internal/peerconn/session.go:41-61 | accepts exactly the valid piece counts; choked, nothing advertised, a Bitfield may come |
| Sessions.Session.Read | internal/peerconn/session.go:71-136 | computes SessionModel.Read: message or error, new state, unread bytes |
| Sessions.Session.WaitUntilReady | internal/peerconn/session.go:246-290 | advertisement, Interested, Unchoke: computes SessionModel.WaitUntilReady under its own watcher |
| Sessions.Session.FetchPiece | internal/peerconn/session.go:142-236 | computes SessionModel.FetchPiece; on any valid session the calls on the connection conform to the protocol monitor and the delivered blocks tile the piece or a part of it; on success the file is what the delivered blocks make |
| Sessions.TempFile.WriteAt | cmd/bt/main.go:354-364 | an accepted block is in the file at its offset and nothing else changed; of a refused one some first part may have been written |
| Sessions.PatchedByte | cmd/bt/main.go:354-364 | what writing at an offset does to each byte of a file |
| SessionTrace.FetchPieceIsLegal | internal/peerconn/session.go:138-290 | in every run each event is permitted by the protocol monitor, no watcher is left, and on success exactly the piece's length was delivered |
| FetchTheorems.InterestedOnce | internal/peerconn/session.go:274-276 | Interested is sent at most once |
| FetchTheorems.RequestsAreInOrder | internal/peerconn/session.go:171-189 | each Request follows Interested, finds the piece advertised and the session unchoked, is a valid block of the piece, and follows the answer to the one before |
| FetchTheorems.DeliveriesAnswerRequests | internal/peerconn/session.go:202-214 | each delivered block is the peer's latest message and has the index, offset and length of the latest Request |
| FetchTheorems.FetchPieceTiles | internal/peerconn/session.go:138-236 | the delivered blocks tile the piece on success and a prefix of it on failure, none above 16 KiB |
| FetchTheorems.FetchPieceDeliversBlocks | internal/peerconn/session.go:171-233 | on success they are the 16 KiB blocks of the piece, the last one shorter |
| FetchTheorems.BlocksOf16K | internal/peerconn/session.go:172-173 | block k of a piece begins at 16384 * k and has 16384 bytes, the last one what is left |
| SessionCalls.FetchPieceKeepsCoherent | internal/peerconn/session.go:138-236 | however FetchPiece ends, the session is again in a state in which the results about FetchPiece hold |
| SessionCalls.EveryFetchConforms | internal/peerconn/session.go:68-236 | in any sequence of Read and FetchPiece calls on a session from NewSession, successful or not, every FetchPiece conforms to the monitor, leaves no watcher and delivers a tiling |
| FetchSuccess.FetchSucceedsExactly | internal/peerconn/session.go:138-290 | when no context ends and no write fails, FetchPiece succeeds with given data and leaves given bytes unread if and only if the input reads as a history in which the peer advertises the piece, unchokes, and answers each request before any other block or Choke; any other accepted messages may come in between |
| FetchSuccess.FreshTransfer | internal/peerconn/session.go:63-290 | on a fresh session such a history is acceptable, its first part is the shortest that announces the piece by an opening Bitfield or a Have, and its second the shortest after which the last choking message is Unchoke |
| AnyWorld.FetchSucceedsInWorld | internal/peerconn/session.go:138-305 | for every behaviour of contexts, deadlines, writes and the callback: FetchPiece succeeds with given data if and only if the input reads as such a history and none of the next 4 + 5 * blocks checks and calls fails |
| FetchErrors.FetchFollowsStory | internal/peerconn/session.go:138-305 | for every session, peer and world FetchPiece returns the error of the first thing that goes wrong, or none: by its position, the first check, deadline, write or callback that fails decides; if none does, the message or read failure that ends the peer's input |
| FetchErrors.EveryInputTells | internal/peerconn/session.go:138-290 | every input is of one of the four forms that FetchFollowsStory speaks of: not advertised, not unchoked, a block not answered, or served |
| FetchErrors.FailsExactly | internal/peerconn/session.go:138-305 | each error, in each world, if and only if it is the verdict on such a form of the input; a missing or empty piece is refused before anything is read |
| FetchErrors.ChokedExactly | internal/peerconn/session.go:200-202 | ErrPeerChoked if and only if the peer, ready and after some answers, chokes instead of answering a request |
| FetchErrors.UnavailableExactly | internal/peerconn/session.go:264-267 | ErrPieceUnavailable if and only if the peer's Bitfield comes without the piece |
| FetchErrors.OtherErrorsExactly | internal/peerconn/session.go:203-211 | ErrPeerProtocol if and only if a block comes that was not asked for or Read finds a violation; a wire error if and only if Read finds it |
| HonestPeer.HonestPeerServes | internal/peerconn/session.go:138-290 | a Bitfield with the piece, Unchoke and the answers, with any skippable frames and anything at all afterwards, make FetchPiece succeed with exactly the data and leave what comes afterwards unread |
| HonestPeer.PeerServes | internal/peerconn/session.go:72-84 | the same for the bytes of any acceptable history that advertises, unchokes and answers |
| SessionHistory.LayeredValidation | internal/peerconn/session.go:91-132 | of a message ReadFrame accepted only three things can be wrong: a late Bitfield, spare bits, a Have out of range; ParseHave and ParsePiece cannot fail, nor SetPiece for a piece in range |
| SessionHistory.RejectionKeepsState | internal/peerconn/session.go:91-132 | a rejected message changes nothing but the window for a Bitfield, which it closes |
| SessionHistory.ReturnedMessagesParse | internal/peerconn/session.go:202-206 | so ParsePiece never fails on a message that Read returned |
| SessionHistory.ReadErrors | internal/peerconn/session.go:68-71 | Read fails only on the stream, a malformed frame or a protocol violation |
| SessionHistory.HistoryDecidesState | internal/peerconn/session.go:63-66 | choked is decided by the last Choke or Unchoke, availability is the opening Bitfield and all Haves, the Bitfield window is open only before any message |
| SessionHistory.AcceptedIffAcceptable | internal/peerconn/session.go:63-66 | a history is accepted exactly if a Bitfield comes first and without spare bits and every Have is in range |
| SessionHistory.AvailabilityNeverShrinks | internal/peerconn/session.go:107-130 | no accepted message removes a piece, although a Bitfield replaces the set |
| SessionHistory.ReadingFoldsHistory | internal/peerconn/session.go:71-136 | after any sequence of Read calls the state is the fold of the messages they returned |
| SessionStutter.InsertionIsSame | internal/peerwire/message.go:174-183 | skippable frames inserted at a frame boundary leave the stream the same for a session |
| SessionStutter.StutteringInvariance | internal/peerconn/session.go:72-84 | such frames change neither what Read returns, nor the state, nor anything FetchPiece returns, sends or delivers |
| SessionStutter.ReadExactly | internal/peerconn/session.go:71-136 | what Read returns, exactly: the error of the first frame that ReadFrame rejects, or the next message, or the violation it commits |
| Wire.ReadFrame | internal/peerwire/message.go:75-197 | computes ReadStep: the frame or error, and exactly the bytes consumed |
| Wire.ReadAfterWrite | internal/peerwire/message.go:52-65 | of what WriteTo writes, ReadFrame returns a well-formed message, skips an unknown one whole, rejects any other |
| Wire.WriteAfterRead | internal/peerwire/message.go:67-197 | an accepted frame re-encodes to exactly the bytes consumed |
| Wire.ReadIsLocal | internal/peerwire/message.go:67-197 | bytes after the frame are left alone and do not matter |
| Wire.StreamRoundTrip | internal/peerwire/message.go:51-197 | a stream of messages and keep-alives is read back to the last byte |
| Wire.StreamReencodes | internal/peerwire/message.go:51-197 | a stream read to its end without unsupported frames is the encoding of what was read |
| WireFormat.BigEndian | internal/peerwire/message.go:84 | four-byte values compare as their bytes do from the first on: most significant byte first |
| WireFormat.WrittenBigEndian | internal/peerwire/message.go:59 | the same for what is written |
| WireFormat.FrameLayout | internal/peerwire/message.go:56-62 | a frame is four bytes of length, the ID, the payload |
| WireFormat.StandardLengths | internal/peerwire/message.go:106-173 | the accepted payload length of each message number |
| WireFormat.WholeFrame | internal/peerwire/message.go:75-197 | what ReadFrame makes of every input that holds a whole frame, and what it leaves |
| WireFormat.DecidedForGood | internal/peerwire/message.go:67-74 | what ReadFrame decides no further bytes change |
| WireFormat.BrokenMeansUndecided | internal/peerwire/message.go:80-101 | ReadFrame reports a broken stream if and only if further bytes would have made a difference |
| WireFormat.RejectedEarly | internal/peerwire/message.go:67-72 | a length that does not fit is rejected before the payload arrives |
| Wire.Reader.ReadFull | internal/peerwire/message.go:80-82 | all the bytes asked for, or failure with the input used up |
| Writing.WriteFull | internal/peerwire/write.go:5-23 | a prefix of the data is written, all of it on success; success is reported exactly if every Write made progress and none failed, otherwise the first one to go wrong |
| Writing.WriteTo | internal/peerwire/message.go:51-65 | an oversized message writes nothing; otherwise a prefix of the encoding, all of it on success |
| Writing.WriteKeepAlive | internal/peerwire/message.go:211-214 | the four zero bytes, or a prefix of them on failure |
| Writing.SendAndReceive | internal/peerwire/write.go:5-23 | frames sent through any progressing short-writing writer and read back are the same frames, and nothing is left to read |
| Writing.ReceiveAll | internal/peerwire/message.go:75-197 | repeated ReadFrame calls compute ReadAll: the frames, the error that ended them, and the bytes left |
| Payloads.HaveRoundTrip | internal/peerwire/message.go:240-276 | ParseHave gives an index exactly for the message NewHave builds from it |
| Payloads.RequestRoundTrip | internal/peerwire/message.go:278-348 | ParseRequest gives a request exactly for the message NewRequest builds from it, within the limits |
| Payloads.PieceRoundTrip | internal/peerwire/message.go:350-418 | ParsePiece gives a block exactly for the message NewPiece builds from it |
| WireFormat.HaveLayout | internal/peerwire/message.go:240-249 | message 4, the index |
| WireFormat.RequestLayout | internal/peerwire/message.go:278-298 | message 6: index, offset, length, in this order; refused outside 1 to 16384 bytes |
| WireFormat.PieceLayout | internal/peerwire/message.go:350-371 | message 7: index, offset, data, in this order; refused above 16384 bytes |
| Payloads.BuiltMessagesAreWellFormed | internal/peerwire/message.go:105-173 | what these constructors build passes ReadFrame's length checks |
| Bitfields.NewBitfield | internal/peerwire/bitfield.go:17-46 | accepts exactly the valid counts; the empty set |
| Bitfields.Bitfield.HasPiece | internal/peerwire/bitfield.go:93-108 | membership in the set; false outside the range |
| Bitfields.SetPiece | internal/peerwire/bitfield.go:110-128 | adds exactly that piece, in place; out of range nothing changes |
| Bitfields.RunsOfSetPiece | internal/peerwire/bitfield.go:110-128 | along any run of calls spare bits stay zero and the set grows by exactly the valid indexes |
| Bitfields.SpareMaskCovers | internal/peerwire/bitfield.go:77-86 | the spare-bit mask catches exactly the bits from the first unused one on |
| Bitfields.HighBitFirst | internal/peerwire/bitfield.go:93-128 | a byte is the sum of its bits' weights, the first piece weighing 128 |
| Bitfields.ParseAcceptsValidBits | internal/peerwire/bitfield.go:57-91 | ParseBitfield accepts exactly the right length without spare bits |
| Bitfields.ParseBitfield | internal/peerwire/bitfield.go:57-91 | a fresh copy of an accepted payload; the errors of the checks otherwise |
| Bitfields.AcceptedPayloadsAreSets | internal/peerwire/bitfield.go:57-91 | accepted payloads for n pieces correspond one to one to the subsets of [0, n) |
| Bitfields.WriteBitfield | internal/peerwire/bitfield.go:48-55 | writes the message with those bits, or a first part of it on failure; a bitfield beyond the frame limit writes nothing |
| Bitfields.BitfieldRoundTrip | internal/peerwire/bitfield.go:48-91 | a written bitfield passes ReadFrame and ParseBitfield with the same bits |
| Layouts.SplitPieceHashes | internal/metainfo/parse.go:111-126 | fails exactly on a partial digest; otherwise the digests in order |
| Layouts.DigestsRejoin | internal/metainfo/parse.go:111-126 | the digests joined are the field again, each 20 bytes |
| Layouts.AcceptsExactCover | internal/metainfo/parse.go:69-109 | a layout is accepted exactly if its numbers are in range and as many pieces as it has are needed to cover the content |
| Layouts.AcceptedKeepsLayout | internal/metainfo/parse.go:100-126 | an accepted layout has the declared lengths and as hash i the bytes 20 * i to 20 * i + 19 |
| Layouts.PieceInFile | cmd/bt/main.go:275-280 | for each index of an accepted layout start does not overflow, lies in the file, and the length is at least one; all but the last piece are full |
| Layouts.PiecesPartitionFile | cmd/bt/main.go:275-277 | the pieces tile [0, Length) |
| Layouts.BlocksPartitionFile | internal/peerconn/session.go:172-232 | cut into the blocks FetchPiece asks for they do so again: each byte of the file is in exactly one block |
| Download.ReplayIsContent | cmd/bt/main.go:354-364 | writing the delivered blocks into an empty file leaves their concatenation |
| Download.FetchedFile | cmd/bt/main.go:351-369 | after a successful fetch the file is the piece's bytes as delivered, of the piece's length |
| Download.DownloadPiece | cmd/bt/main.go:263-400 | published exactly if the fetch succeeds and the digest matches, and then exactly the delivered bytes; each rejection exactly on its condition; NewSession cannot fail |
| Download.PublishedExactly | cmd/bt/main.go:346-400 | when nothing else fails, the piece is published with given data if and only if the data has the right digest and the peer serves it in the sense of FetchSucceedsExactly |
| Download.HonestDownload | cmd/bt/main.go:346-400 | a piece transmitted with the right digest is published, whatever the peer sends afterwards |
| Watchers.AtMostOneLive | internal/peerconn/conn.go:87-115 | over any sequence of uses of one connection at most one watcher is live |
| Watchers.NoLateCancellation | internal/peerconn/conn.go:87-91 | once stop has returned every watcher has exited and the deadline is clear; both stay so in every continuation until watchContext is called again, in which the context may end at any time |
| Watchers.EndInterrupts | internal/peerconn/conn.go:87-105 | once the context ends during I/O the watcher can move until it has set the immediate deadline, and needs at most two moves for it |
| Watchers.InterruptedOnlyAfterEnd | internal/peerconn/conn.go:87-105 | the deadline is immediate during I/O only if the context has ended |
| Watchers.DeadlineDuringIO | internal/peerconn/conn.go:92-105 | until the context ends, I/O runs under the context's own deadline |
| Watchers.StopReturns | internal/peerconn/conn.go:110-114 | the stop function cannot hang |

## Left out

- Trackers (internal/tracker): URL building and response decoding would add only easy members.
- Sockets, TCP dialling, clocks and timeouts: a dial is a nondeterministic outcome that comes eventually, a timeout is a context that ends or a stream that stops, and contexts end at any step.
- Handshakes (internal/peerwire/handshake.go, exchangeHandshake and the Handshake field of DialResult): a fixed layout.
- metainfo.Open: reading the file and bencode; the model starts from the decoded info dictionary. SHA-1 is an arbitrary function.
- The rest of cmd/bt/main.go: flags (a negative index is rejected there), the existing-destination checks, peer identifiers, temporary-file names, seek, close, link and rename and their errors.
- The check `uint64(*piece) >= 1<<32` (cmd/bt/main.go:266-268): implied by the limit on the hash count, and proved so where the index becomes four bytes wide.
- Error texts and wrapping: an error is its kind. The zero-length error of ParseRequest does not wrap ErrMalformedFrame and is modelled as the caller's-range kind accordingly.
- The `invalid peer frame` branch of Read and nil arguments (context, connection, callback): the model's types have no such values.
- A Go `int` of 32 bits: `int` is taken to be 64 bits wide, and lengths of slices to fit it.
- Pool objects: the pool's goroutines are one transition system on values, not objects; second and later callers of Close wait inside sync.Once and are not separate actors. The collector's discard branch closes the connection in the same step that chooses it.
- A session's failed write is one event; how many bytes of it were sent is the subject of Writing.WriteFull.
- The observer of SessionTrace does not see the state change of a read that fails; the session makes no further use of the connection then.
- Aliasing of Frame.Message and ParsePiece payloads with the frame's storage: payloads are values. Aliasing of Bitfield copies is modelled (they share the array).
- Watchers: a context without a deadline does not occur, because every context the client passes has a timeout, and clearing the deadline is assumed to succeed.
- DownloadPiece: starts from a connection already chosen and an empty temporary file.
