# goafp, modelled and proved in Dafny

goafp is an AFP client: it speaks DSI over one TCP connection, logs in, opens file forks and serves
them as ordinary files. This project models the parts that carry state and arithmetic, layer by layer:

| module | file | what it models |
|---|---|---|
| `Bytes`, `Modular` | `Bytes.dfy`, `Modular.dfy` | big-endian integers of a fixed width, `math/big` byte strings, modular powers |
| `Frames` | `Frames.dfy` | DSI headers, the read loop, concurrent senders on one socket |
| `RequestIds`, `Pipeline` | `RequestIds.dfy`, `Pipeline.dfy` | request IDs, the pending table, the close latch; every interleaving of pipelined requests |
| `OpenSessions` | `OpenSession.dfy` | the session option list and the write cap it sets |
| `Contents`, `Groups`, `ForkIO` | `Contents.dfy`, `Group.dfy`, `Fork.dfy` | file contents, `errgroup`, chunked concurrent reads and writes, upload and download |
| `Managers` | `Manager.dfy` | generations, redials and retries over every interleaving of callers |
| `FileHandle` | `File.dfy` | the file handle that survives reconnects, refining a plain in-memory file |
| `SrpServers`, `Srp`, `Dhx2` | `SrpServer.dfy`, `Srp.dfy`, `Dhx2.dfy` | the two key agreements, each against a server written out on its own |
| `Wires`, `Entries`, `Enumerate` | `Wire.dfy`, `Entry.dfy`, `Enumerate.dfy` | the reply reader, bitmapped entries, enumeration replies and paging |

How things are modelled:

- Goroutines, locks, cancellation, timers and the network are transition systems (`Pipeline`, `Managers`,
  the senders in `Frames`): a run is a sequence of events, and the theorems speak about every run.
- The `errgroup` inside `ReadAt` and `WriteAt` is a loop of guarded commands: which chunk is started,
  applied, answered or lost next, and whether the link drops, is an arbitrary choice.
- `ForkIO.Server` and `Enumerate.Directory` are the server and the link to it. The server keeps every
  fork command it received and executes commands from that log and nothing else, so the contents of the
  file depend on what was sent. Only the server, the link and the dialer make a request fail, and
  `failures` counts those; so a contract can say when an operation must succeed. `mark` is the count when
  the latest session was opened, and `closed` holds the links the client closed while they were up.
- SHA-1, MD5, CAST5-CBC, Unicode normalisation and random bytes are function parameters.
- The closures passed to `do` are the values of the datatype `FileHandle.Fn`.

What holds only under a condition has a counterexample and the exact condition:

- A peer reads whole frames as long as nothing is written after a frame whose write failed partway; once
  such a frame is out and the session is not closed, later complete writes can make it misread, and
  otherwise they cannot (`SharedLink`, `TornMatters`).
- A caller can get another request's reply, and the read loop can block for good on its channel, if and
  only if its ID was still in use when it was issued, by an abandoned request not yet answered or by a
  reply still on its way (`ClashMatters`); that happens after 65536 IDs (`ReissueReachable`) and never
  before (`FirstTurnIsSafe`).
- `register` ends exactly when fewer than 65536 requests are pending (`RegisterEnds`); a full table is
  reachable (`FullTable`).
- `do` hands its function a nil volume on the retry exactly when the latest dial failed for another
  caller (`NilOnRetry`, `NilReachesFn`).
- The count of a failed `WriteAt` describes a prefix exactly when the acknowledged pieces come first
  (`CountIsPrefix`, `FailedWriteMisleads`).
- A write keeps `File.size` right exactly when the file's growth is in the count: nothing applied reaches
  past the old end, or every piece up to the furthest one applied is acknowledged; with nothing applied,
  the cursor was within the file (`SizeAfterAnyWrite`). A write repeated after a reconnect must overtake
  what its first run added (`SizeAfterRuns`, and `File.Write` for both). For a successful write that means:
  it was not empty or started within the file (`SizeAfterWrite`).
- Write requests respect the server quantum exactly when it exceeds 20 bytes (`WritesFit`).
- An exclusive create reports "exists" for a file it made itself exactly when the first run of the closure
  made it and then failed on a link that died, and the second run's create was answered (`ExclusiveTold`,
  `ExclusiveMisled`, `OpenFile`).
- A failed `OpenFile` leaves a fork open on a live session exactly when the run that counts opened one and
  lost its reply or failed to truncate, with the link still up (`LeavesFork`, `OpenFile`).
- `loginSRP` panics exactly when N and B are not 0 and g or B is wider than the N field (`PanicsWhen`,
  `PanicReachable`).
- Names and paths survive exactly up to 255 and 65535 bytes (`PascalRoundTrip`, `WirePathRoundTrip`).

## Model

| member | source | states |
|---|---|---|
| `Bytes.UintPut` | internal/afp/wire.go:25-28 | writing a number in a fixed width and reading it back keeps it modulo 256^width |
| `Bytes.PutUint` | internal/afp/wire.go:98-120 | every byte string is the fixed-width encoding of the number it denotes |
| `Bytes.FourBytes` | internal/afp/wire.go:98-120 | four bytes denote the number with the first byte most significant |
| `Bytes.LeftPad` | internal/afp/uam.go:158-161 | `leftPad` gives exactly n bytes denoting v, and panics exactly when v does not fit |
| `Bytes.StripFits` | internal/afp/srp.go:91-98 | `big.Int.Bytes` has at most n bytes exactly when the number is below 256^n |
| `Modular.Agreement` | internal/afp/uam.go:98-105 | both sides of a Diffie-Hellman exchange reach g^(xy) |
| `Frames.Encode` | internal/dsi/header.go:42-51 | the array filled range by range holds the header's bytes |
| `Frames.HeaderRoundTrip` | internal/dsi/header.go:42-62 | decoding an encoded header gives it back |
| `Frames.HeaderOnto` | internal/dsi/header.go:42-62 | every 16 bytes are the encoding of the header they decode to |
| `Frames.HeaderLayout` | internal/dsi/header.go:42-51 | the sixteen bytes of a header, one by one |
| `Frames.Unreadable` | internal/dsi/conn.go:267-284 | fewer than 16 bytes, or fewer than the header claims, end the stream; a claim above 16 MiB is oversized |
| `Frames.ReadLoop` | internal/dsi/conn.go:267-311 | the loop cuts any byte stream into the frames and the ending of `CutStream`: end of stream, oversized claim, or close |
| `Frames.CutWire` | internal/dsi/conn.go:267-284 | frames followed by any part of another frame are cut into exactly those frames, in order |
| `Frames.CutPartial` | internal/dsi/conn.go:270-284 | no proper part of a frame yields a frame |
| `Frames.SendsInv` | internal/dsi/conn.go:181-193 | every step of the senders, a write that fails partway included, keeps the wire equal to the finished frames plus part of the lock holder's or of a torn one, until more is written after a torn one |
| `Frames.SharedLink` | internal/dsi/conn.go:181-193 | in every interleaving of senders and failed writes, at every moment, the peer reads exactly the completely written frames in lock order, provided nothing was written after a torn frame |
| `Frames.SentOnce` | internal/dsi/conn.go:181-193 | over every run a frame is sent at most as often as asked for; unless a write was given up, each frame asked for is sent, being sent, or waiting |
| `Frames.TornMatters` | internal/dsi/conn.go:187-191 | with the lock free, complete writes can still make the peer misread the stream if and only if a frame is torn and none before it closes the session |
| `Frames.CutAfter` | internal/dsi/conn.go:267-311 | frames in front of any stream are cut off whole, up to one that closes the session |
| `RequestIds.RegisterEnds` | internal/dsi/conn.go:201-206 | the search for an ID ends if and only if fewer than 65536 are pending |
| `RequestIds.FreeFrom` | internal/dsi/conn.go:201-206 | it ends within pending+1 increments at the first free ID, all before it being pending |
| `RequestIds.Registered` | internal/dsi/conn.go:195-209 | the ID was free and is added to the pending table, nothing else changes |
| `RequestIds.Apart` | internal/dsi/conn.go:202 | equal IDs are a positive multiple of 65536 increments apart |
| `RequestIds.Conn.constructor` | internal/dsi/conn.go:77-85 | a new connection has counter 0, no pending request and no error |
| `RequestIds.Conn.Register` | internal/dsi/conn.go:195-209 | refuses exactly on a closed connection, else issues and records the first free ID |
| `RequestIds.Conn.Unregister` | internal/dsi/conn.go:211-215 | removes that ID only |
| `RequestIds.Conn.NewId` | internal/dsi/conn.go:217-222 | advances the counter without looking at the pending table |
| `RequestIds.Conn.Fail` | internal/dsi/conn.go:257-265 | the first error is stored and closes `done`; later ones change nothing; counter and pending table stay |
| `Pipeline.RunInv` | internal/dsi/conn.go:195-296 | every run keeps: IDs are tickets modulo 65536, the table holds exactly the open calls, replies match IDs |
| `Pipeline.HonestRunInv` | internal/dsi/conn.go:100-127 | with a server that answers each request once, every run also keeps each request in one place and calls without a clash pure |
| `Pipeline.OwnId` | internal/dsi/conn.go:100-127 | whatever the server sends, a call returns only a reply with its own ID, a close only with the close error, and open calls have distinct IDs |
| `Pipeline.OwnReply` | internal/dsi/conn.go:119-126 | with an honest server a call whose ID was not in use elsewhere gets the reply to its own request, at most one value, without blocking the read loop |
| `Pipeline.IdsApart` | internal/dsi/conn.go:195-222 | two issues of one ID are a positive multiple of 65536 increments apart, in every run |
| `Pipeline.FirstTurnIsSafe` | internal/dsi/conn.go:195-222 | no clash can happen among the first 65536 IDs |
| `Pipeline.LatchHolds` | internal/dsi/conn.go:257-265 | once closed, in every continuation: same error, `done` closed once, no further call registers |
| `Pipeline.FailCloses` | internal/dsi/conn.go:257-265 | over every run: no error and `done` open until something fails; then `done` is closed once, the error is that of the first failure, every waiting call can wake with it, and no request registers |
| `Pipeline.OutcomeTells` | internal/dsi/conn.go:100-127 | over every run: a call returns a reply only by receiving one, a send error only if its send failed, a cancellation only if cancelled, the close error only if woken by the close |
| `Pipeline.ReissueReachable` | internal/dsi/conn.go:217-222 | a run that reissues the ID of an abandoned, unanswered request exists |
| `Pipeline.StaleDelivery` | internal/dsi/conn.go:286-296 | from any honest state, however busy the link, in which a registered call's ID is in use elsewhere and the loop is not wedged, another request's reply can be put into its channel |
| `Pipeline.WrongReply` | internal/dsi/conn.go:286-296 | from any such state the call can return the reply to somebody else's request |
| `Pipeline.BlockedLoop` | internal/dsi/conn.go:287-292 | from any such state the read loop can block for good on the call's channel |
| `Pipeline.ClashMatters` | internal/dsi/conn.go:100-127 | for a call issued after any honest run: a wrong reply is possible if and only if its ID was in use when issued, and so is blocking the read loop on its channel |
| `Pipeline.FullTable` | internal/dsi/conn.go:201-206 | a run ends in a pending table on which `register` would search for ever |
| `Pipeline.WedgedForGood` | internal/dsi/conn.go:287-292 | a read loop blocked that way delivers nothing in any continuation |
| `OpenSessions.Session.ReadOptions` | internal/dsi/conn.go:147-159 | the payload is a printed option list and a rest at which reading stops; an error exactly for a truncated option; the last 4-byte quantum is recorded |
| `OpenSessions.OneReading` | internal/dsi/conn.go:147-159 | a payload has only one such reading |
| `OpenSessions.LastWins` | internal/dsi/conn.go:155-157 | of several 4-byte quantum options the last one counts |
| `OpenSessions.WritesFit` | internal/afp/write.go:39-50 | every piece of every buffer fits the quantum if and only if the quantum exceeds 20 bytes |
| `OpenSessions.Negotiated` | internal/afp/write.go:106-124 | after any option list announcing more than 20 bytes last, no FPWriteExt of an upload exceeds it, for every chunk size and parallelism |
| `Contents.OverlaysCommute` | internal/afp/write.go:78-85 | writes to disjoint ranges commute, also when either extends the file |
| `Contents.OverlayAppend` | internal/afp/write.go:109-116 | consecutive writes are one write |
| `Contents.AnyOrder` | internal/afp/write.go:67-86 | applying all pieces of a tiling, in any order and with repetitions, is the one sequential write |
| `Contents.LandedStep` | internal/afp/write.go:78-85 | applying one more piece keeps the description of a half-finished write exact |
| `Contents.LandedAll` | internal/afp/write.go:86-92 | when every piece has landed the contents are the sequential write |
| `Contents.LandedPresent` | internal/afp/write.go:86-92 | the bytes of every piece that landed are in the file |
| `Contents.RetryWrite` | internal/nfsfs/file.go:95-99 | repeating a write interrupted anywhere gives what one undisturbed write gives |
| `Contents.CountIsPrefix` | internal/afp/write.go:88-92 | the returned count describes the first bytes if and only if no acknowledged piece follows an unacknowledged one |
| `Contents.FailedWriteMisleads` | internal/afp/write.go:88-92 | a failed write where it does not, and where the file grew further than the count says |
| `Contents.SizeAfterWrite` | internal/nfsfs/file.go:100-103 | `size` is right after a successful write if and only if it was not empty or started inside the file |
| `Contents.SizeAfterAnyWrite` | internal/nfsfs/file.go:100-103 | after any outcome of a write, `size` is right if and only if nothing applied reaches past the old end or all pieces up to the furthest one applied are acknowledged; with nothing applied, if and only if the cursor was within the file |
| `Contents.SizeAfterSecondWrite` | internal/nfsfs/file.go:95-103 | after a repeated write whose first run made the file longer, `size` is right if and only if the second run's acknowledged pieces reach the end without a gap |
| `FileHandle.SizeAfterRuns` | internal/nfsfs/file.go:95-103 | the exact condition for `size` after a write of one or two runs, whatever their outcomes |
| `Groups.Group.Waited` | internal/afp/write.go:76-86 | `Wait` returns only when all goroutines were started, and reports no error only if every one finished well |
| `Groups.Group.Launched` | internal/afp/write.go:76-86 | never more goroutines run than the limit, and one that could not ask makes the group fail |
| `ForkIO.Split` | internal/afp/write.go:65-73 | the pieces tile the buffer exactly, none longer than the chunk |
| `ForkIO.Fork.constructor` | internal/afp/fork.go:75-81 | default chunk of 128 KiB and 8 in parallel |
| `ForkIO.Fork.SetReadAhead` | internal/afp/fork.go:91-98 | only positive values are taken |
| `ForkIO.Fork.WriteChunkSize` | internal/afp/write.go:39-50 | the smaller of the setting and the quantum less 20 if the quantum exceeds 20, else the setting; 32 KiB if the setting is not positive |
| `ForkIO.Server.Execute` | internal/afp/write.go:16-34 | the server carries out a command it received, all of it or nothing |
| `ForkIO.Server.Answer` | internal/afp/fork.go:115-134 | the server answers a read it received with exactly min(count, remaining) bytes, EOF only at the end |
| `ForkIO.Fork.WriteChunk` | internal/afp/write.go:16-34 | the FPWriteExt sent for a piece carries its bytes and its own offset; it is missing only if the link refused it |
| `ForkIO.Fork.Apply` | internal/afp/write.go:16-34 | executing a received FPWriteExt puts the bytes of its piece in place, whole or not at all |
| `ForkIO.Fork.SendPieces` | internal/afp/write.go:75-86 | in every interleaving: every command sent is the FPWriteExt of a piece and every applied piece was asked for; exactly the applied pieces are in the file, acknowledged ones are applied, and it fails exactly if some request failed |
| `ForkIO.Fork.WriteAt` | internal/afp/write.go:59-93 | success exactly if no request failed, and then every piece was sent and applied, the file is the sequential write and the count len(p); always every command is a piece of p at its own offset; on failure every acknowledged piece is there, nothing outside the range changed, the count is the acknowledged bytes, and it tells the file's growth exactly as `GrowthCounted` says |
| `ForkIO.Fork.ReadChunk` | internal/afp/fork.go:115-134 | the bytes of the chunk asked for, EOF only at the end |
| `ForkIO.Fork.AskChunk` | internal/afp/fork.go:115-134 | the FPReadExt sent for a chunk names its own offset and length; it is missing only if the link refused it |
| `ForkIO.Fork.FetchPieces` | internal/afp/fork.go:163-179 | in every interleaving: every command sent is the FPReadExt of a chunk; all chunks are asked for and fetched, or it fails, exactly if some request failed |
| `ForkIO.Fork.Reassemble` | internal/afp/fork.go:181-190 | the chunks, up to the first short one, form the sequential read |
| `ForkIO.Fork.ReadAt` | internal/afp/fork.go:143-191 | bytes and count of one sequential read, EOF whenever p was not filled and only at the end, p past n untouched, and 0 with p unchanged exactly if a request failed; the commands are the reads of its chunks |
| `ForkIO.Fork.Truncate` | internal/afp/write.go:132-150 | the length sent is the one asked for (modulo 2^32 below zero); the server applies what was sent; it fails exactly if a request failed |
| `ForkIO.Fork.Close` | internal/afp/fork.go:101-111 | at most one close, of this fork, on its session; success only if it was sent, failure exactly if a request failed |
| `ForkIO.Fork.ReadFrom` | internal/afp/write.go:106-124 | terminates; succeeds exactly if neither the stream nor a write failed, and then the stream overlays the file from 0; on failure the first `total` bytes are in place and nothing beyond the stream's range changed |
| `ForkIO.Fork.WriteTo` | internal/afp/fork.go:204-227 | terminates; succeeds exactly if no read or write failed, and then the whole file came out; always a prefix of it |
| `ForkIO.UploadDownload` | internal/afp/fork.go:204-227 | an upload to an empty file followed by a download gives the same stream and counts, for all chunk sizes, parallelism and quanta |
| `Managers.Reconnect` | internal/nfsfs/conn.go:52-71 | one locked section: success leaves the generation different from the failed one, and it grows by at most one |
| `Managers.RunInv` | internal/nfsfs/conn.go:52-101 | every run of concurrent calls keeps the manager and caller invariants |
| `Managers.Generations` | internal/nfsfs/conn.go:37-71 | generation = 1 + successful redials, each generation redialled once, pointers all nil or of the newest triple, nothing serves two generations |
| `Managers.DoContract` | internal/nfsfs/conn.go:76-101 | at most two calls and one dial; a dial only after a first call that failed on a connection which was dialled and is dead, or without a volume; a second call only after such a failure; never the same volume twice; the generation has passed the failed one |
| `Managers.NeverSevered` | internal/nfsfs/conn.go:58-60 | over every run no connection is closed while it is up, and at most the newest one is up |
| `Managers.HealthyRun` | internal/nfsfs/conn.go:76-101 | as long as no link dies there is no redial and no second call, however often the function fails |
| `Managers.ReturnsLastResult` | internal/nfsfs/conn.go:76-101 | `do` returns what its last call of the function returned, or a failure right after its own dial failed, and goes on to redial only after a failed call or without a volume |
| `Managers.NilOnRetry` | internal/nfsfs/conn.go:94-100 | the second call gets a nil volume if and only if the latest dial failed for another caller |
| `Managers.UndisturbedHasVolume` | internal/nfsfs/conn.go:76-101 | a call undisturbed by others' failed dials never passes a nil volume |
| `Managers.NilReachesFn` | internal/nfsfs/conn.go:94-100 | a run of two calls in which a nil volume is passed |
| `FileHandle.ConnManager.constructor` | internal/nfsfs/conn.go:37-47 | generation 1 with the first triple |
| `FileHandle.ConnManager.Reconnect` | internal/nfsfs/conn.go:52-71 | does what `Managers.Reconnect` says with a session never seen before; the old link is down afterwards, and closed by the client only in the generation that failed |
| `FileHandle.ExclusiveTold` | internal/nfsfs/fs.go:101-125 | `OpenFile` reports "exists" if and only if: exclusive create, and the file was there and the create that counts was answered, or it was not, the first run created it and failed on a link that died, and the second create was answered |
| `FileHandle.ExclusiveMisled` | internal/nfsfs/fs.go:102-107 | two courses of events in which an exclusive create of a new file reports that it exists: the create's reply is lost, or FPOpenFork is |
| `FileHandle.LeavesForkWhen` | internal/nfsfs/fs.go:113-121 | on a link that stays up, a failed open of an existing file leaves a fork open if and only if the server opened it and the reply was lost or the truncate failed |
| `FileHandle.WriteRetried` | internal/nfsfs/file.go:91-105 | two attempts of a write have the effect of one |
| `FileHandle.ReadRetried` | internal/nfsfs/file.go:66-77 | two attempts of a read have the effect of one |
| `FileHandle.Retried` | internal/nfsfs/conn.go:76-101 | two attempts of any operation have the effect of one |
| `FileHandle.File.Create` | internal/nfsfs/fs.go:102-112 | creates an empty file or leaves the file alone, even if its reply is lost |
| `FileHandle.File.Open` | internal/nfsfs/file.go:33-52 | the fork kept is one opened on this volume, and it is kept as it is if it belongs to this volume; a new one has the file's length; it fails exactly if the request failed |
| `FileHandle.File.OpenOnce` | internal/nfsfs/fs.go:101-125 | one attempt: result and existence are those of `Attempted` for what happened to its requests; created or cut exactly as asked, size right on success; which FPOpenFork was carried out |
| `FileHandle.File.Call` | internal/nfsfs/file.go:56-64 | one attempt of a closure; a close of another volume's fork sends nothing; commands stay on the fork's session |
| `FileHandle.File.Do` | internal/nfsfs/conn.go:76-101 | with at most one reconnect and retry, the effect of one attempt; no live link is closed; without a redial it fails only on a live link, and it redials only after a failure or an early end; a failure on a usable link means that a request failed on that very session; an open ends as its course of events says |
| `FileHandle.File.Read` | internal/nfsfs/file.go:66-77 | the sequential read at the cursor, which moves by the count |
| `FileHandle.File.ReadAt` | internal/nfsfs/file.go:79-89 | the sequential read at an offset |
| `FileHandle.File.Write` | internal/nfsfs/file.go:91-105 | the sequential write at the cursor on success, nothing outside its range changed otherwise; cursor and size follow the count, at most len(p); whether run once or twice, the size stays right if and only if `SizeTold` |
| `FileHandle.File.Seek` | internal/nfsfs/file.go:107-119 | the new position for each whence |
| `FileHandle.File.Truncate` | internal/nfsfs/file.go:121-132 | the file has the new length on success, and only then does `size`; that `size` is right if and only if the length asked for is not negative |
| `FileHandle.File.Close` | internal/nfsfs/file.go:134-151 | at most one FPCloseFork, on the session the fork was opened on, and exactly one if that session is current and nothing fails; the fork is forgotten |
| `FileHandle.OpenFile` | internal/nfsfs/fs.go:96-133 | created, cut or left alone as the flags say; "exists" exactly as `ReportsExists` says, and for a new file only after a failure; a fork is left open exactly as `LeavesFork` says; the new handle has the file's length and starts at 0, or at the end for append |
| `FileHandle.Perform` | internal/nfsfs/file.go:66-132 | one operation that reports success does what the plain file does; a failure is excused by a failed request on the link in use, or by a dial that failed |
| `FileHandle.Play` | internal/nfsfs/file.go:66-132 | any script whose operations all report success gives the results, EOFs, position, size and contents of a plain file, however often the link dies; a failure is excused by a request that failed on the link in use, after a redial or with that link still up, or by a dial that failed; no live link is ever closed |
| `Srp.Mgf1` | internal/afp/srp.go:141-154 | byte i is byte i mod 20 of the digest of seed and counter i / 20 |
| `Srp.XorDigests` | internal/afp/srp.go:93-96 | bit by bit exclusive or of two digests |
| `Srp.XorIsBitwise` | internal/afp/srp.go:93-96 | the exclusive or of two bytes has each bit that differs |
| `Srp.SecretsAgree` | internal/afp/srp.go:79-85 | (B - k g^x)^(a + u x) = (A v^u)^b modulo N, for all values |
| `Srp.KeyBytes` | internal/afp/srp.go:87-88 | the key is the forty bytes of two digests of S, with counters 0 and 1 |
| `Srp.SameKey` | internal/afp/srp.go:50-106 | against a server holding v = g^e mod N, e the hash of salt and of the hash of name, colon and password: the client has the server's u and key, and its M1 is the one the server expects |
| `Srp.MessageBytes` | internal/afp/srp.go:100-106 | marker 3, length and bytes of A, length 20 and M1, byte by byte |
| `Srp.Accepts` | internal/afp/srp.go:100-129 | the server accepts a message with the proof it expects and answers with its own |
| `Srp.HelloRead` | internal/afp/srp.go:39-48 | the client reads the parameters the server wrote |
| `Srp.ReadParams` | internal/afp/srp.go:39-48 | reads what `ParseParams` describes, or fails |
| `Srp.ParamsRoundTrip` | internal/afp/srp.go:39-48 | parsing printed parameters gives them back |
| `Srp.Compute` | internal/afp/srp.go:50-106 | the second message, or one of the three refusals; what it contains is fixed by `SameKey` and `Accepts` |
| `Srp.CheckReply` | internal/afp/srp.go:117-129 | accepts exactly the replies that begin with marker, length and expected proof |
| `Srp.Login` | internal/afp/srp.go:26-130 | the whole exchange |
| `Srp.Completeness` | internal/afp/srp.go:26-130 | against a server written out from RFC 5054 that holds a verifier of the password: logged in, unless the name exceeds 255 bytes, B is 0, g is wider than N, or u is 0 |
| `Srp.AcceptedOnlyWithProof` | internal/afp/srp.go:108-129 | a login succeeds only on a reply that begins with the M2 of the client's own key |
| `Srp.PanicsWhen` | internal/afp/srp.go:70-77 | the client panics if and only if N and B are not 0 and g or B is wider than the N field |
| `Srp.PanicReachable` | internal/afp/srp.go:70-71 | parameters on which it does |
| `Dhx2.IncNonce` | internal/afp/uam.go:163-175 | the successor modulo 256^length, in the same number of bytes |
| `Dhx2.PadPassword` | internal/afp/uam.go:146-149 | the nonce followed by the password cut or zero-filled to 256 bytes |
| `Dhx2.ReadHello` | internal/afp/uam.go:82-96 | reads what `ParseHello` describes, with its three refusals |
| `Dhx2.HelloRead` | internal/afp/uam.go:82-96 | the client reads what a server printed, or refuses it for its key length or degenerate group |
| `Dhx2.KeyLengths` | internal/afp/uam.go:82-96 | a key length is refused as such if and only if it is 0 or above 1024 |
| `Dhx2.KeysAgree` | internal/afp/uam.go:98-108 | both sides derive the same session key |
| `Dhx2.Agree` | internal/afp/uam.go:98-108 | Ma and the key; padding them never fails |
| `Dhx2.AnswerNonce` | internal/afp/uam.go:138-151 | the password is sent only to a server that returned our nonce plus one, together with its nonce plus one |
| `Dhx2.NonceChecked` | internal/afp/uam.go:138-151 | the password leaves if and only if the server's block begins with the nonce plus one, and then behind the server's nonce plus one |
| `Dhx2.PaddedMatches` | internal/afp/uam.go:146-149 | a server comparing 256-byte fields accepts exactly a password that agrees up to byte 256 and trailing zeros |
| `Dhx2.Login` | internal/afp/uam.go:69-156 | the whole exchange |
| `Dhx2.Completeness` | internal/afp/uam.go:69-156 | against a server with its own formulas and initialisation vectors: refused parameters, or logged in exactly if the password agrees up to byte 256 and trailing zeros |
| `Wires.Reader.Take` | internal/afp/wire.go:71-88 | the next n bytes; the cursor never passes the end; the first error stays |
| `Wires.Reader.Num` | internal/afp/wire.go:90-120 | the next big-endian number, 0 after an error |
| `Wires.PascalRoundTrip` | internal/afp/wire.go:32-38 | a Pascal string reads back if and only if it has at most 255 bytes |
| `Wires.WirePathRoundTrip` | internal/afp/wire.go:54-61 | a path reads back if and only if it has fewer than 65536 bytes |
| `Wires.Pascal2In` | internal/afp/wire.go:142-151 | a string behind a 16-bit length is found in the middle of a block |
| `Entries.ParseEntryParams` | internal/afp/entry.go:66-160 | succeeds if and only if the block covers the selected fields and names, each field read at its own offset, for every block and bitmap |
| `Entries.Field` | internal/afp/entry.go:70-107 | one optional field: its bytes, and the reader past it |
| `Entries.HeadFields` | internal/afp/entry.go:70-107 | the fields common to files and directories |
| `Entries.MiddleFields` | internal/afp/entry.go:108-134 | the directory-only or file-only fields |
| `Entries.KnownFile` | internal/afp/entry.go:66-160 | a file block with every field: each field at its literal offset |
| `Entries.KnownDir` | internal/afp/entry.go:66-160 | a directory block with every field: each field at its literal offset |
| `Entries.KnownPlain` | internal/afp/entry.go:66-160 | blocks without UTF-8 name, unix privileges and 64-bit length: the long name, a 32-bit length, a directory's owner |
| `Entries.Dates` | internal/afp/wire.go:12-18 | dates count signed seconds from 2000-01-01 |
| `Enumerate.BlockRoundTrip` | internal/afp/entry.go:66-160 | parsing a printed block gives its entry, for every bitmap |
| `Enumerate.ReadEntry` | internal/afp/session.go:314-327 | takes the entry of `FirstEntry` off the reader, or fails |
| `Enumerate.ParseEntries` | internal/afp/session.go:312-338 | the loop reads exactly the list of `ParseList` |
| `Enumerate.ParseEnumerateReply` | internal/afp/session.go:303-339 | the method reads what `ParseReply` describes, or fails |
| `Enumerate.ReplyRoundTrip` | internal/afp/session.go:303-339 | parsing a printed reply gives its entries, for all bitmaps and lists |
| `Enumerate.KnownReply` | internal/afp/session.go:303-339 | a reply of a file and a directory, byte by byte |
| `Enumerate.ReplyPrefix` | internal/afp/session.go:303-339 | every proper prefix of a printed reply is rejected |
| `Enumerate.Directory.Page` | internal/afp/session.go:279-293 | one round trip gives the entries from that index on |
| `Enumerate.Directory.ReadDir` | internal/afp/session.go:261-301 | all entries once, in order, in at most N+1 round trips, however the server splits them; an error exactly if a query failed |

## Left out

- FileHandle.File.Do: a server is assumed to apply nothing more from a dead link once the new session is open.
- ForkIO.Fork.WriteAt: a piece that the server applies only after `WriteAt` has returned its error is not modelled; a negative offset, which the source sends on as a huge unsigned one, is excluded.
- ForkIO.Fork.ReadAt: a negative offset is excluded, for the same reason.
- ForkIO.Fork.ReadChunk: a server that answers with more or fewer bytes than min(count, remaining) is outside the model; and the reply is taken to be the one to this request, which `Pipeline.OwnReply` gives for a call without an ID clash.
- ForkIO.Fork.SendPieces: an acknowledgement is taken to be the one for its own piece, which `Pipeline.OwnReply` gives for a call without an ID clash; so all results of `ForkIO` and `FileHandle` hold while no ID is reissued too early (`Pipeline.ClashMatters`, `Pipeline.FirstTurnIsSafe`).
- FileHandle.File.Read: a negative cursor is excluded, for the same reason.
- FileHandle.File.ReadAt: a negative offset is excluded, for the same reason.
- FileHandle.File.Write: a negative cursor is excluded, for the same reason.
- FileHandle.Play: empty writes past the end of the file and negative lengths are excluded, since the claim fails for them.
- FileHandle.OpenFile: a read-only fork accepts the same commands as a writable one.
- Enumerate.Directory.ReadDir: directories of more than 2^32 - 2 entries, for which the 32-bit index wraps.
- RequestIds.Conn.Register: required to have a free ID, since the source loops for ever without one; `RegisterEnds` and `FullTable` state when that happens.
- Path cleaning, Chroot, Stat, Chmod, Chown, Chtimes, error mapping and symlinks in `internal/nfsfs`: one request each.
- The simple commands in `internal/afp/ops.go` and `setparams.go`, server information, version choice, guest and cleartext login: settled by reading one branch.
- Unicode normalisation, SHA-1, MD5, CAST5 and CBC themselves, and the quality of random bytes.
- Timers, tickle intervals, timeouts and TCP: only as arbitrary cancel, drop and fail steps.
- The command line, the NFS server and the go-billy interfaces.
