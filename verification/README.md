# Verified model of a folder copier and its relay

The repository holds two programs that share a crate. One copies files: a client streams a
file to a server in one frame per connection. The other is a relay through which peers behind
different routers find each other: a peer registers, probes another peer, and is told its
address. This project models both and proves what they achieve, for every way in which a
network may cut a stream into reads and for every interleaving of the relay's tasks.

**File transfer.** A frame is `operation | path length | path | CRC-32 | data length | data |
CRC-32`. The client sends it through one buffer that first holds the header. The server
decodes it with one buffer, two indices, a remainder counter, a rule for starting the buffer
over, and a running CRC. `TransferFrame` defines frames and the verdict a whole stream
deserves without mentioning reads or indices, and `TransferVerdicts` spells verdicts and
octets out for every stream; `TransferServer` and `TransferClient` are the loops, proved
against that; `Transfer` joins the two ends. A socket is `Chunks.Input`: a stream and a
function `offers` that decides how much each read delivers. A theorem for every `offers` is a
theorem for every chunking. `Crc32` is the real CRC, from section 8 of RFC 1952, proved equal
to division bit by bit, and `Utf8` is proved equal to encoding code points.

**Relay.** `Peers` and `RelayFrames` are the codecs, `FrameReader` the reader that parses a
growing buffer again and again, `Sender` the peer that registers and probes. `RelaySystem` is
the relay at the granularity of single reads, lookups and parts of writes, with one lock per
stream. `FrameAtomicity`, `OctetFlow`, `ProbeHistory` and `RequestReply` prove what every run
keeps. `WholeSystem` adds a sender and leaves all other peers unconstrained, and `Rendezvous`
shows that the state the safety theorem speaks of is reached.

Where the code departs from its evident intent, both readings are modelled:

- `src/server/server.rs:408` takes the start index, not the length of the last chunk, from the
  remaining length; line 410 then asserts the result to be zero. `Rule` selects the code as
  written or such that the assertion holds. As written, the fate of a request depends on the
  chunking; `Stumbles` is the exact condition, and
  `SomeChunkingKills` says which requests can be hit.
- A checksum that would straddle the end of the buffer is never received: the server reads into
  an empty slice and takes that for the end of the stream. `Straddles` says when, exactly,
  and `StraddlingFrame` is such a frame.
- `src/relay/framehelper.rs:21` returns a frame without dropping its octets. `drops` selects
  the reading. As written, no sender ever gets as far as connecting (`AsWrittenNeverConnects`).
- `src/relay/relay.rs:167` unwraps the previous value of the map, so that registering an id
  for the first time panics. `unwraps` selects the reading; the safety theorems hold for both.
  As written, `ReadyNeedsPredecessor` says what else a sender depends on.
- `src/relay/frame.rs:208` writes 16 octets of an IPv6 address and line 357 reads 4.
  `PeerFramesComeBackIff` says exactly which frame sequences survive.

## Model

| member | source | states |
|---|---|---|
| Crc32.AnyPartition | src/client/client.rs:86-113 | However data is split into update calls, the running CRC ends as the CRC of the whole, so two ends that split the data differently agree |
| Crc32.UpdateAppend | src/server/server.rs:415-417 | One more update call continues the CRC as if both pieces had been one |
| Crc32.CheckValue | src/server/server.rs:186-188 | The hasher has the customary check value: on the digits "123456789" it gives 0xCBF43926 |
| Crc32.FeedIsDivision | src/client/client.rs:86-113 | For every register and message the table-driven register equals a bit-serial division by 0xEDB88320 over the binary digits of the octets |
| Crc32.CrcIsDivision | src/server/server.rs:186-188 | For every message the checksum is the complement of that division begun with all ones |
| Crc32.PatternIsValue | src/client/client.rs:158-162 | The bits fed to the hasher for an octet are its binary representation |
| Crc32.FeedInjective | src/server/server.rs:444-455 | Two different registers stay different over any common message |
| Crc32.WindowInjective | src/server/server.rs:444-455 | From one register, two different windows of up to four octets lead to different registers |
| Crc32.BurstChangesChecksum | src/server/server.rs:444-455 | Altering up to four consecutive octets anywhere in a message always changes its checksum |
| Chunks.Input.Read | src/server/server.rs:30-39 | A read delivers the next octets of the stream into the buffer from the given index, leaves the rest alone, and yields none only when there is no room or nothing left |
| Chunks.ReadSize | src/server/server.rs:30-39 | The choice of a network is unrestricted: any number of octets that the space and the stream allow can be what a read yields |
| Chunks.SlotIsRemainder | src/server/server.rs:361-365 | The buffer index after the p-th octet, with the buffer started over when full, is ((p - 1) mod N) + 1 |
| Utf8.ValidIff | src/server/server.rs:155-171 | Octets are accepted as text if and only if they are the concatenated encodings of some sequence of code points other than surrogates, each given by arithmetic on its value |
| TransferFrame.FieldsOfFrame | src/client/client.rs:46-75 | Every field of a frame is found where the decoder looks for it, with the lengths and checksums that were encoded, whatever follows the frame |
| TransferVerdicts.FrameLayout | src/client/client.rs:46-75 | A frame octet by octet: 2, the path length as two octets, the path, its checksum and the data length as four octets each by explicit quotients and remainders, the data, its checksum |
| TransferFrame.FrameVerdict | src/server/server.rs:277-463 | The exact verdict on any well-formed frame for every buffer size: which of the cuts, a path that is not UTF-8, a straddling checksum, or saved with exactly its data |
| TransferFrame.PathAcceptedIff | src/server/server.rs:95-238 | A path is accepted if and only if it arrives as length, path and matching CRC within the buffer and is UTF-8 |
| TransferVerdicts.PathVerdicts | src/server/server.rs:95-238 | The exact verdict on the path of every stream that has a path length, whatever octets follow and wherever it ends, and how many octets it declares |
| TransferVerdicts.DataVerdicts | src/server/server.rs:322-463 | The exact verdict and the exact file for every stream with an acceptable header, whatever follows: cut data, a missing or straddling checksum, a wrong one, or a save; the file holds all octets of data that came |
| TransferVerdicts.NoDataLength | src/server/server.rs:277-320 | A header that ends before the data length leaves an empty file |
| TransferVerdicts.CutFrame | src/server/server.rs:260-464 | The fate of every proper beginning of every frame for every buffer size: the exact rejection, the exact part of the data that is left in the file, and whether a folder was made |
| TransferVerdicts.Operations | src/server/server.rs:496-522 | Octet 1 asks for a folder and octet 2 for a file, any other is refused, and the bound on reads follows the operation |
| TransferFrame.SavedIsFrame | src/server/server.rs:277-463 | Soundness on arbitrary input: a stream that is saved starts with exactly one well-formed frame, both CRCs match, and the stored file is its data field |
| TransferFrame.SavedIff | src/server/server.rs:277-463 | Exact acceptance: a stream is saved under a path if and only if it starts with a frame for it that the buffer can handle |
| TransferFrame.DataBurstDetected | src/server/server.rs:444-455 | For every buffer size, altering up to four consecutive octets of data sent with its checksum turns a save into a data checksum mismatch and leaves every rejection what it was |
| TransferFrame.PathBurstDetected | src/server/server.rs:186-238 | For every buffer size, altering up to four consecutive octets of a path sent with its checksum ends in rejection before any folder is created, also when the path was not UTF-8 before and is after; the exact rejection |
| TransferFrame.BurstRejected | src/server/server.rs:186-455 | Whatever well-formed frame was sent, whatever follows it and whatever the buffer size, a burst of up to four octets in its path or data ends in rejection |
| TransferServer.ReadMore | src/server/server.rs:30-39 | One read keeps the buffer equal to the last octets received and the indices in step with the octet count, also across a restart of the buffer |
| TransferServer.Fill | src/server/server.rs:132-153 | The read loop of a header field succeeds if and only if the field fits before the end of the buffer and the stream holds it; over-reads stay in the buffer; no read is issued once the field is complete |
| TransferServer.ReadChecksum | src/server/server.rs:537-579 | Returns the four octets after the processed ones, wherever they were when it was called; fails exactly when they straddle the buffer end or the stream ends |
| TransferServer.CreateParentFolder | src/server/server.rs:80-252 | For every chunking: the verdict is that of the whole stream, the parent folder is created exactly on acceptance, the indices handed on point just after the path checksum, and there are at most as many reads as octets of path part declared |
| TransferServer.Store | src/server/server.rs:411-417 | Writing a chunk extends file, hasher and position alike: the file is the slice of the stream from the start of the data, the hasher its CRC |
| TransferServer.ReceiveChunk | src/server/server.rs:358-435 | Conservation, per turn of the loop: octets in the file plus remaining length is the declared length, file and hasher match the stream, start = end while data remains, the counter does not underflow except exactly where line 408 as written makes it |
| TransferServer.ReceiveData | src/server/server.rs:322-435 | For every chunking: stores exactly the data the stream has, ends with the CRC of all data and just after it, or fails exactly when the stream is too short, or dies exactly when a read overshoots under line 408 as written |
| TransferServer.FinishFile | src/server/server.rs:322-463 | The verdict on data and checksum for every chunking, only that file changed, and on success the buffer between the indices is what was received after the frame |
| TransferServer.SaveFile | src/server/server.rs:260-464 | For every stream and chunking: the outcome, the files and the folders are those the whole stream calls for; on success the leftover window is exact; at most as many reads as octets declared |
| TransferServer.ReadFirst | src/server/server.rs:478-487 | The first read of a connection leaves the operation at index 0 and the buffer in step, or there is nothing at all |
| TransferServer.Dispatch | src/server/server.rs:496-522 | The first octet selects the operation; folders, files and answer are those of the whole stream, and an unknown operation changes nothing |
| TransferServer.Serve | src/server/server.rs:477-528 | The same for a whole connection, dispatch included, from an empty buffer: the answer depends on the chunking only under line 408 as written, and the reads are bounded by what the operation's own fields declare |
| TransferClient.StartFrame | src/client/client.rs:77-94 | The first write is the header and whatever part of the file the first read put behind it, none if the header fills the buffer |
| TransferClient.StreamRest | src/client/client.rs:96-109 | The loop sends the rest of the file for every sequence of short reads, and ends with the CRC of all of it |
| TransferClient.SendFile | src/client/client.rs:40-132 | For every sequence of short reads the octets written are exactly the frame; nothing is sent for a file too large for 32 bits, a path too long for 16, or a header beyond the buffer |
| Transfer.StraddlesFormula | src/server/server.rs:537-564 | The rejecting condition in closed form: ((10 + path + data) mod 1024) + 1 is at least 1021 |
| Transfer.StraddlingFrame | src/server/server.rs:544-560 | A concrete frame that straddles, one octet of path and 1009 of data: for every chunking its data checksum is never received, and as written the server may die instead |
| Transfer.ServedFrame | src/server/server.rs:477-528 | What the server does with a complete frame for each path of at most 1013 octets: verdict and files |
| Transfer.SendAndServe | src/client/client.rs:40-132 | End to end for every path and every file: the client sends nothing exactly for the paths and files it cannot frame, and then nothing happens; otherwise, with arbitrary short reads on both sides, exactly the file is stored under its path and success reported unless the path is not UTF-8, the checksum straddles, or line 408 as written trips |
| Transfer.CutTransfer | src/server/server.rs:358-442 | A transfer cut after any number of octets is answered, for every chunking, with how far it came; only once all data has arrived can the server, as written, die instead |
| Transfer.BurstNeverSaved | src/server/server.rs:444-455 | For every frame sent and every chunking, after a burst in path or data the server rejects or, as written, dies, but never saves; after a burst in the path no file and no folder changes |
| Transfer.SomeChunkingTrips | src/server/server.rs:395-410 | For some sizes of the reads the subtraction at line 408 goes wrong on a frame of this length, if and only if it has data that does not end in the first or last cell of the buffer |
| Transfer.SomeChunkingKills | src/server/server.rs:404-410 | For a path of at most 1013 octets: some chunking makes the server, as written, die on the request if and only if the path is UTF-8 and there is data that does not end in the first or last cell of the buffer |
| Transfer.AsWrittenDependsOnChunks | src/server/server.rs:404-410 | One and the same request, with one octet of path and four of data, is saved when it arrives at once and kills the server task when cut after its first octet of data |
| Peers.PeerInfoRoundTrip | src/relay/peer.rs:110-133 | Decoding an encoded record gives back ip and whole milliseconds modulo 2^64 with a zero id, using 33 octets, whatever follows |
| Peers.NormalAccuracy | src/relay/peer.rs:167-178 | The round-trip time survives to within a millisecond if and only if it is below 2^64 ms, and never grows |
| Peers.DecodeEncodeDecode | src/relay/peer.rs:139-180 | Anything decoded once, non-zero IPv4 padding included, is unchanged by encoding and decoding again |
| Peers.RecordVerdicts | src/relay/peer.rs:139-180 | What becomes of every 33 octets: kind 0 is the first four octets of the address, kind 1 all sixteen, any other is refused, and the milliseconds are taken modulo 2^64; fewer octets are incomplete |
| RelayFrames.RelayRoundTrip | src/relay/frame.rs:264-288 | Parsing an encoded relay frame gives it back and stops exactly at its end, whatever follows |
| RelayFrames.RelayCanonical | src/relay/frame.rs:254-262 | A relay frame has one encoding: the octets parsed are the encoding of the result |
| RelayFrames.PeerRoundTrip | src/relay/frame.rs:382-417 | The same for peer frames up to normalisation of the peer record, and exactly what becomes of a command with an IPv6 address |
| RelayFrames.Codes | src/relay/frame.rs:79-213 | The literal octets of every frame without a record |
| RelayFrames.RecordLayout | src/relay/peer.rs:110-133 | The literal octets of a record: kind, address padded with zeros, and milliseconds as sixteen digits to the base 256 |
| RelayFrames.RelayVerdicts | src/relay/frame.rs:243-262 | The parser of relay frames on every input: incomplete exactly on the proper beginnings of frames, refused exactly on an unknown operation |
| RelayFrames.PeerVerdicts | src/relay/frame.rs:301-380 | The parser of peer frames on every input that it does not accept, by the octets that decide |
| FrameReader.RelaySteady | src/relay/frame.rs:254-262 | Verdicts on relay frames are stable under more input, and 65 octets always suffice for one |
| FrameReader.PeerSteady | src/relay/frame.rs:312-380 | Verdicts on peer frames are stable under more input, and 35 octets always suffice for one |
| FrameReader.Connection.ReadMore | src/relay/framehelper.rs:30-43 | A read moves octets from the stream to the buffer without losing or reordering any, and yields none only at the end of the stream |
| FrameReader.Connection.ReadFrame | src/relay/framehelper.rs:11-45 | For every initial buffer and chunking the result is that of parsing the buffer and the entire stream at once: frame, decode error, none if all is empty, reset if a frame is cut; no octet is lost |
| FrameReader.Connection.NextFrame | src/relay/framehelper.rs:20-44 | The same, and what remains pending under either reading of whether parsed octets are dropped |
| FrameReader.ReadTwiceAsWritten | src/relay/framehelper.rs:20-23 | As written, a second read returns the same result, and after a frame it does so without a single read of the stream |
| FrameReader.ReadAll | src/relay/relay.rs:306-332 | Reading until no frame is left returns the frames of the whole stream and how it ends, for every chunking |
| FrameReader.FramesComeBack | src/relay/framehelper.rs:11-45 | For any stable parser faithful to an encoder: the frames written come back in order, and a stream cut inside a frame yields all earlier ones and then a reset |
| FrameReader.RelayFramesComeBack | src/relay/frame.rs:254-288 | The frames written to the relay come back exactly, for every cut |
| FrameReader.PeerFramesComeBack | src/relay/frame.rs:312-417 | The frames written to a peer come back up to normalisation, for every cut, when no command names an IPv6 address |
| FrameReader.PeerFramesComeBackIff | src/relay/frame.rs:349-417 | They all come back if and only if no command names an IPv6 address |
| Sender.OutcomeIsStage | src/relay/sender.rs:45-112 | The outcome of the two read loops is exactly how far all octets received lead; a stream that ends between frames makes them spin, one that ends inside a frame is a lost connection |
| Sender.ConnectingIff | src/relay/sender.rs:45-112 | The sender gets to connect if and only if the stream starts with a successful registration followed by a probe result with a decodable record |
| Sender.AsWrittenNeverConnects | src/relay/sender.rs:83-112 | As written, no stream whatever lets the sender connect: the answer to its registration is read again as the answer to its probe |
| Sender.ConnectToPeer | src/relay/sender.rs:29-112 | For every chunking: the outcome is the one of the whole stream, and the probe is sent exactly after a successful registration |
| RelaySystem.StepShape | src/relay/relay.rs:301-422 | Every step keeps replies going to the task's own stream and commands to the stream that was looked up |
| RelaySystem.StopsExactly | src/relay/relay.rs:301-334 | A step stops a task if and only if it is the task's own and it took garbage or a ProbeAck, or met the end of its stream, or took garbage for an acknowledgement or met the end inside one, or, as written, registered an id for the first time |
| RelaySystem.CanGoOn | src/relay/relay.rs:301-422 | A task that has not stopped can always take a step, unless it waits for a lock or for a call about the id it registers |
| FrameAtomicity.AlwaysAtomic | src/relay/framehelper.rs:47-61 | On every run each stream is a concatenation of whole encoded frames in lock order, followed by what the lock holder has written of its frame |
| FrameAtomicity.PeerReadsLog | src/relay/framehelper.rs:47-61 | In any state in which nobody is writing to a stream, its reader recovers exactly the frames in lock order, if and only if no command in it names an IPv6 address |
| FrameAtomicity.PeerReadsPrefix | src/relay/framehelper.rs:47-61 | While a task is writing, the peer's reader recovers all earlier frames and finds the last one incomplete; once its last octet is out, even before the lock is released, it recovers that one too |
| FrameAtomicity.NeverTooLong | src/relay/relay.rs:227-233 | If every connection has an IPv4 address, no run ever puts a command on a stream that its reader would shorten |
| FrameAtomicity.PeersReadLogs | src/relay/framehelper.rs:47-61 | On every run between IPv4 addresses, at every moment, the reader of every stream recovers exactly the frames written in lock order, without the last one as long as octets of it are still to come |
| OctetFlow.OctetsConserved | src/relay/framehelper.rs:20-44 | On every run every octet a peer sent has been taken in order or is still on its way, and what its own task read is the encodings of the requests it found and the octets in its buffer |
| OctetFlow.AckIsRead | src/relay/relay.rs:183-187 | What a probe takes for the acknowledgement is exactly what its task read from the probed stream since it wrote SYNC |
| OctetFlow.AckDecides | src/relay/relay.rs:184-218 | The probe succeeds exactly if those octets parse as a ProbeAck, fails on any other frame, and dies of garbage; the history says so |
| OctetFlow.HistoryIsOnTheWire | src/relay/framehelper.rs:47-61 | On every run the octets on a stream nobody writes to are the encodings of exactly the frames the history says were written to it |
| ProbeHistory.ReplayIsLatest | src/relay/relay.rs:157-169 | The registry maps an id to an entry if and only if the latest registration of that id made that entry |
| ProbeHistory.AlwaysHonest | src/relay/relay.rs:157-242 | On every run the registry is the replay of its insertions, each insertion is of the inserting connection's own address and stream, and every successful call is witnessed by the history |
| ProbeHistory.ProbeIsWitnessed | src/relay/relay.rs:175-225 | A probe reports success only if, within that call, SYNC was written to the stream found and then a ProbeAck was read from it; the stream is that of the latest registration of the id at every moment from lookup to report, and the address reported is that stream's peer's |
| ProbeHistory.ConnectIsForwarded | src/relay/relay.rs:227-242 | A request to connect reports success only if, within that call, the command with the requester's own address was written to the stream of the latest registration of the id |
| ProbeHistory.LookupIsExact | src/relay/relay.rs:175-236 | On every run a lookup finds nothing only if nobody has registered the id, and otherwise finds the latest registration |
| ProbeHistory.AlwaysFatal | src/relay/relay.rs:157-169 | As written, on every run, a task that registers an id for the first time has stopped and never does anything more |
| RequestReply.EveryRequestAnswered | src/relay/relay.rs:301-422 | On every run, commands aside, a connection is sent one reply per request in order; the task did exactly what the reply says and nothing else, step by step, for every kind of request and outcome; at most one request is unanswered, underway or given up, and never a Ping or a DoConnect given up |
| RequestReply.LookupOfTurn | src/relay/relay.rs:175-240 | A probe or connect that failed because nothing was found had, at its lookup, no earlier registration of the id; one that found a peer found its latest registration |
| RequestReply.WhyStopped | src/relay/relay.rs:301-334 | On every run, exactly why a task stops, with the panic at line 167 in terms of earlier registrations |
| RequestReply.TurnsAreStretches | src/relay/relay.rs:306-332 | The m-th turn of a connection is what its task did between its m-th request and its next one |
| RequestReply.TurnsAreRequests | src/relay/relay.rs:306-332 | There is exactly one turn for each request the task has parsed, in order |
| RequestReply.FirstRegistrationPanics | src/relay/relay.rs:157-169 | As written, a registration kills its task if and only if that id was never registered before |
| RequestReply.FirstRegistrationRun | src/relay/relay.rs:157-169 | The shortest run that shows it: one request, read, parsed and inserted leaves the id in the registry and, as written, the task stopped instead of replying |
| WholeSystem.ScriptRequests | src/relay/sender.rs:39-78 | Whatever the relay has parsed of the sender's stream is a prefix of its registration and its probe |
| WholeSystem.ReadyKept | src/relay/sender.rs:83-112 | Once the octets received make the sender ready, further octets do not change with whom it connects |
| WholeSystem.ReadyIsIntroduced | src/relay/sender.rs:45-112 | A sender is ready only if the first frame written to it was a successful registration and the second described the very peer it connects to |
| WholeSystem.AlwaysSystemInv | src/relay/relay.rs:301-422 | All invariants of relay and sender hold in every state of every run of the whole system |
| WholeSystem.ReadyMeansConnected | src/relay/sender.rs:39-112 | Whole-system safety: a sender is ready to connect only if its id was registered from its address and stream, and after that the destination was found, sent SYNC, acknowledged on the stream of its latest registration, and reported with the address it registered from; what the sender found is that report up to normalisation |
| WholeSystem.ReadyNeedsPredecessor | src/relay/relay.rs:157-169 | As written, a sender gets that far only if its id had been registered before it by another connection |
| Rendezvous.SomeRunConnects | src/relay/sender.rs:39-112 | For any two ids, any addresses and any round-trip time there is a run of the whole system that brings the sender to that point, under either reading of line 167; as written it takes one more connection |
| Rendezvous.SomeConnectSucceeds | src/relay/relay.rs:348-361 | For any id and addresses there is a run on which a request to connect to a registered peer succeeds, with the command on the peer's stream and success on the requester's |

## Left out

- Path joining, the `/` prefix, the `ends_with("/")` branch and errors of the file system: the disk is a map from received paths to contents and a set of paths whose parent folder exists; paths that differ only in a leading `/` are different keys.
- `write` at `src/server/server.rs:345` is a full write, like the other two.
- The status octets the server writes at the end of a connection, which the client never reads, and all logging.
- Errors of socket reads and writes other than the end of a stream.
- TransferClient.SendFile: the file does not change between `metadata` and the last read, and opening, connecting and writing succeed.
- `send_folder`, directory walking, command lines, `main` and the benchmark.
- The shared buffer of a stream's writer is not modelled apart from the stream: octets between a write and its flush may or may not be out, which is what `RelaySystem.Write` with any number of octets stands for.
- Relay tasks are modelled on values, as steps on one state, because steps of different tasks interleave; the registry's and the streams' aliasing shows as connection numbers.
- The relay's tasks always drop the octets they parsed. What the reader as written does is shown at the reader (`ReadTwiceAsWritten`) and at the sender (`AsWrittenNeverConnects`).
- `DashMap` guards are one per id, not one per shard, and `Cache` has no capacity limit.
- Liveness of the relay: a reader holds the stream's lock while it waits for data, which the model does not make other tasks suffer from; a step is then only more often possible.
- Sender.ConnectToPeer: a stream that ended with nothing pending makes the loops at lines 66 and 106 of `src/relay/sender.rs` spin for ever; the model reports that instead.
- Measuring the round-trip time (any duration may be measured), random ids, `Display`, `ping` of the trait, and the connection at the end of `connect_to_peer`, whose address is a placeholder.
- Texts of error messages; errors are told apart by where they arise.
