# A model of the Torrent client's protocol engine

This project models, in Dafny, the protocol and bookkeeping core of a small BitTorrent client:

- **the torrent descriptor** (`TorrentMetadata`), the field extraction from the decoded `.torrent`
  tree, and the piece and block geometry built on it (`torrent_parser.dfy`);
- **the block ledger** (`PieceManager`): two ragged boolean matrices recording the requested and
  received blocks, updated in place (`pieces.dfy`);
- **the peer-wire codec**: the message frame, the request, have, piece and bitfield payloads, and
  the 68-byte handshake, following section "peer messages" of BEP 3 (`message.dfy`,
  `handshake.dfy`);
- **one peer connection** (`Peer`): the receive buffer cut into frames, the handshake check,
  choke state, the queue of candidate blocks, and the one-request-at-a-time selection against the
  shared ledger (`peer.dfy`);
- **the UDP tracker session** (`UdpHandler`, BEP 15): the connect and announce requests, the reply
  parsers, transaction-id matching, the doubling retry timer and connection-id expiry (`udp.dfy`);
- **`chunk`**, the windowing helper the announce parser uses (`utils.dfy`).

Supporting modules: `wrappers.dfy` holds `Option`, the JavaScript exceptions the code can throw and
`Result`. `bytes.dfy` holds the `Buffer` vocabulary: big-endian fields, `set` into a zero-filled
buffer, `readInt8`, hex text, and UTF-8 decoding of ASCII.

Each stateful source class has a matching structure:

- It is a Dafny `class` holding the source object's state fields. The socket and the callback are
  replaced by records of what was sent to them (`written` and `ended` for a peer; `sent`, `closed`
  and `completions` for a tracker), the pending timeout is the `timer` field, and `threw` is added.
  The configuration, address and URL are method parameters rather than fields. `UdpHandler` keeps
  the connection id and its expiry together in one `connection` field.
- Its state is also a snapshot datatype: `Session` for a peer, `Tracker` for a UDP session.
- Each handler is a pure step function on that snapshot (`HaveStep`, `MessageStep`, `SendStep`, …).
- Each `method` of the class is proved to move the object from `old(State())` to the step function's
  result. The properties are proved as lemmas about the step functions.

An exception that escapes a peer or tracker handler ends the Node process. The `threw` flag records
it, and no handler is modelled after it.

The code is followed wherever it departs from the protocol or from its evident intent:

- A connection id is reused for 90 s (`1.5 * 60 * 1000` ms in `updateConnectionId`). Section
  "Time outs" of BEP 15 lets a client use a connection id for one minute after receiving it, and has
  trackers accept it for two.
- A single-file torrent (a layout BEP 3 allows) makes the descriptor's constructor throw in `extractFilesInfo`, because
  `info.files` is absent. It does not get an empty file list.
- `chunk` cuts windows at offsets 0, 1, 2, … rather than 0, 6, 12, …, so the peers of an announce
  reply overlap, although BEP 15 lays them out as consecutive 6-byte entries.
- `getPieceBlockLength` gives the one block of a 16 KiB last piece a length of 1, not the 16384
  bytes the block holds
  (`TorrentParser.BlockLengthsAsWrittenExample`).

## Model

| member | source | states |
|---|---|---|
| Bytes.HexInjective | src/peers/peer.js:94-98 | equal hex renderings come from equal byte strings, so comparing `infoHash.toString('hex')` with the stored hex hash compares the raw hashes |
| Bytes.DecodeAsciiBytes | utils.js:6-7 | decoding the UTF-8 bytes of an ASCII string gives the string back |
| Utils.Chunk | utils.js:1-4 | `chunk` yields ceil(n / size) windows; window k is `xs[k .. min(k + size, n)]`, starting at offset k |
| Utils.CeilDivExact | utils.js:2 | the window count is `Math.ceil(n / size)`: n / size, plus one when size does not divide n |
| Utils.ChunkEmpty | utils.js:1-2 | an empty input gives no windows |
| Utils.ChunkFullWindows | utils.js:2-3 | when the input is at least `size` long, every window has exactly `size` elements |
| Utils.ChunkWindowStart | utils.js:2-3 | window k begins with element k of the input, so consecutive windows overlap |
| Utils.ChunkAlignedPartition | utils.js:1-4 | the aligned split the callers mean has the same ceil(n / size) count and concatenates back to the input |
| Utils.ChunkOverlapExample | utils.js:2-3 | two 6-byte records give the windows [0..6) and [1..7), where the aligned split gives [0..6) and [6..12) |
| TorrentParser.ExtractAnnounce | src/torrent/torrentParser.js:36-44 | the pushes of the `forEach` loops collect exactly the announce URLs: the flattened announce list when there is one, else `[announce]` when present, else none |
| TorrentParser.FlattenUrlsAt | src/torrent/torrentParser.js:38-40 | flattening keeps order: URL j of inner list i comes right after all URLs of the earlier inner lists |
| TorrentParser.AnnounceListWins | src/torrent/torrentParser.js:37-42 | `announce` is ignored whenever `announce-list` is an array |
| TorrentParser.ExtractFilesInfo | src/torrent/torrentParser.js:46-53 | it throws exactly when `info.files` is absent; otherwise there is one entry per file, in order, with the same length and the decoded path |
| TorrentParser.ExtractInfoLength | src/torrent/torrentParser.js:70-76 | it is the sum of the file lengths when `files` is present. It throws when that list is empty (`reduce` has no seed) or when neither `files` nor `length` is present. Otherwise it is `info.length` |
| TorrentParser.NewTorrentMetadata | src/torrent/torrentParser.js:17-34 | an id without the `.torrent` suffix throws "Unsupported torrent file extension". A missing or empty `files` list throws a TypeError. Otherwise every field holds what its extraction produces, and `infoHash` is the hex form of the 20-byte hash |
| TorrentParser.SumLengthsDecoded | src/torrent/torrentParser.js:46-53 | the descriptor's total length equals the sum of the lengths in `filesData` |
| TorrentParser.GetPieceLength | src/torrent/torrentParser.js:82-90 | no piece is longer than the nominal piece length |
| TorrentParser.LastPieceIndex | src/torrent/torrentParser.js:82-90 | every piece is full-length except a short last one. When the piece length divides the total, the index treated as last is one past the end, and its length is 0 |
| TorrentParser.PieceLengthsSumToTotal | src/torrent/torrentParser.js:82-90 | the lengths of pieces 0 .. ceil(total / P) - 1 add up to the total length |
| TorrentParser.GetBlocksPerPiece | src/torrent/torrentParser.js:101-103 | it is the least count of 16 KiB blocks covering the piece, which is 0 exactly for a zero-length piece |
| TorrentParser.GetPieceBlocks | src/torrent/torrentParser.js:105-112 | there are `getBlocksPerPiece(i)` entries. Entry k has index i, begins at k * 16384 inside the piece, and has `getPieceBlockLength(i, k)` as its length |
| TorrentParser.IntendedBlocksSumToPiece | src/torrent/torrentParser.js:92-99 | with the intended rule (16 KiB blocks and a short remainder last), the block lengths of a piece add up to its length |
| TorrentParser.BlockLengthsAsWrittenExample | src/torrent/torrentParser.js:92-99 | as written, a 32 KiB piece of a 48 KiB torrent has a first block of length 2, so its blocks sum to 16386. The 16 KiB last piece's one block has length 1 |
| TorrentParser.ShortPieceBlockLengthExample | src/torrent/torrentParser.js:92-99 | a last piece shorter than a block is requested as one full 16 KiB block |
| Pieces.Every | src/torrent/pieces.js:30 | `every(blocks => blocks.every(Boolean))` holds exactly when every entry is true |
| Pieces.EmptyLedger | src/torrent/pieces.js:8-14 | `buildPiecesArray` has n rows; row i has `getBlocksPerPiece(i)` entries, all false |
| Pieces.Write | src/torrent/pieces.js:19-27 | the assignment throws exactly when the row is missing. Otherwise only the named entry can change, it becomes true, and entries only go from false to true |
| Pieces.Lookup | src/torrent/pieces.js:33-34 | the lookup throws exactly when the row is missing; on an existing entry it answers its negation |
| Pieces.CountTrueBounds | src/torrent/pieces.js:41-49 | the downloaded count never exceeds the total, and equals it exactly when every block is received |
| Pieces.DoneStaysDone | src/torrent/pieces.js:24-27 | entries only go from false to true, so a full ledger stays full |
| Pieces.NotNeededAfterRequest | src/torrent/pieces.js:29-35 | right after `addRequested(b)`, `needed(b)` is false unless that request completed the matrix |
| Pieces.ResetMakesMissingNeeded | src/torrent/pieces.js:30-34 | once every block is requested, a block not yet received is needed again |
| Pieces.PieceManager.constructor | src/torrent/pieces.js:7-17 | both matrices are the empty ledger of `infoPieces.length / 20` rows shaped by `getBlocksPerPiece` |
| Pieces.PieceManager.AddRequested | src/torrent/pieces.js:19-22 | it marks only `requested[index][begin / 16384]`. It fails exactly for a missing row, and `received` is untouched |
| Pieces.PieceManager.AddReceived | src/torrent/pieces.js:24-27 | it marks only `received[index][begin / 16384]`. It fails exactly for a missing row, `received` only grows, and `requested` is untouched |
| Pieces.PieceManager.Needed | src/torrent/pieces.js:29-35 | when every entry is requested, `requested` becomes a copy of `received`, else it stays as it was. `received` never changes, and the answer is whether the block's entry is not requested |
| Pieces.PieceManager.IsDone | src/torrent/pieces.js:37-39 | it holds exactly when every entry of `received` is true |
| Pieces.PieceManager.Progress | src/torrent/pieces.js:41-49 | the downloaded count is at most the total, and equals it exactly when the ledger is done |
| Pieces.TwoPieceLedgerExample | src/torrent/pieces.js:7-17 | a 48 KiB torrent with 32 KiB pieces has rows of 2 and 1 blocks, and is done once those three blocks are received |
| Message.Serialize | src/peers/message.js:21-31 | the successive writes into the allocated buffer produce exactly the frame the length, id and payload rules define, or its RangeError |
| Message.DeserializeFrame | src/peers/message.js:21-37 | reading a serialised message back loses a falsy id and an empty payload, and turns an id of 128 or more negative |
| Message.RoundTrip | src/peers/message.js:21-37 | for ids 1..127 and a non-empty payload, `deserialize(serialize(m))` is m |
| Message.KeepAliveAndChoke | src/peers/message.js:21-37 | a keep-alive and a choke both serialise to four zero bytes, which read back as a keep-alive. A choke with a payload throws |
| Message.FramePrefix | src/peers/message.js:21-31 | the length prefix counts exactly the bytes after it |
| Message.DeserializeIgnoresPrefix | src/peers/message.js:33-37 | frames that differ only in their first four bytes read alike |
| Message.BuildRequest | src/peers/message.js:39-47 | it succeeds exactly when index, begin and length fit 32 bits, giving id 6 and the 12-byte big-endian payload; otherwise it throws a RangeError |
| Message.RequestFrame | src/peers/message.js:39-47 | a serialised request is 17 bytes: length 13, id 6, then the payload |
| Message.RequestPayloadFields | src/peers/message.js:39-47 | reading the payload at 0, 4 and 8 gives index, begin and length |
| Message.ParseHave | src/peers/message.js:49-55 | it gives an index exactly for id 4 with a 4-byte payload, and that index is the payload read big-endian. It throws for id 4 without a payload |
| Message.ParsePiece | src/peers/message.js:73-82 | it gives a response exactly for id 7 with at least 8 payload bytes. The payload is then index, begin and the block, in that order; id 7 without a payload throws |
| Message.ParseBitfield | src/peers/message.js:57-71 | the nested loops push exactly the indices `BitfieldIndices` lists. A non-bitfield id gives null, and a missing payload throws a TypeError |
| Message.PushBits | src/peers/message.js:63-69 | eight turns of testing the low bit and halving append the indices of the byte's set bits, from the most significant down |
| Message.BitfieldMember | src/peers/message.js:57-71 | index n is reported exactly when n < 8 * length and the bit of byte n / 8 lying n % 8 places below its most significant bit is set |
| Message.BitfieldExample | src/peers/message.js:57-71 | 0x81 gives [7, 0] |
| Handshake.NewHandshake | src/peers/handshake.js:6-10 | a missing or empty protocol string becomes "BitTorrent protocol"; the other fields are kept |
| Handshake.HandshakeBytes | src/peers/handshake.js:12-23 | it succeeds exactly when the string length fits a byte and the fields fit their places. It then gives 68 bytes, with the string length at byte 0 and zeros at 20..27 |
| Handshake.HandshakeLayout | src/peers/handshake.js:16-21 | where the fields land: the string's first 19 bytes from byte 1, then zeros up to byte 20; the info hash from byte 28 (up to byte 48 when a peer id follows); the peer id from byte 48 |
| Handshake.Serialize | src/peers/handshake.js:12-23 | the writes into the 68-byte buffer produce `HandshakeBytes`, or its RangeError |
| Handshake.Deserialize | src/peers/handshake.js:25-33 | the info hash is present exactly when more than 47 bytes arrived, and the peer id exactly when more than 48 did |
| Handshake.DeserializeSerialize | src/peers/handshake.js:12-33 | a serialised handshake with 1 to 19 ASCII characters reads back with the same string. A 20-byte field is recovered, and an absent one comes back as 20 zero bytes |
| Handshake.DefaultRoundTrip | src/peers/handshake.js:12-33 | the client's own handshake (the default string and both 20-byte fields) round-trips exactly |
| Handshake.TwentiethCharacterLost | src/peers/handshake.js:15-17 | a 20-character string reads back as its first 19 characters and a NUL, so the handshake does not round-trip |
| Handshake.TruncatedHandshake | src/peers/handshake.js:29-30 | at most 47 bytes carry neither field; exactly 48 carry the info hash only |
| Handshake.EmptyPstrIsDefault | src/peers/handshake.js:26-27 | an empty buffer or a zero length byte yields the default protocol string |
| Peer.ClientHandshakeWritable | src/peers/peer.js:52-59 | the handshake `handleConnect` builds serialises without error |
| Peer.InterestedFrame | src/peers/peer.js:99-100 | the `interested` message serialises to [0, 0, 0, 1, 2] |
| Peer.HandshakeStepIff | src/peers/peer.js:92-105 | the handshake is accepted exactly when it carries the default string and our info hash. Accepting writes one `interested` and sets `handshake`; refusing only ends the socket |
| Peer.HandshakesAgree | src/peers/peer.js:64-67 | the handshake one client writes is exactly one 68-byte frame for another client, which accepts it |
| Peer.ShiftOneFacts | src/peers/peer.js:164-171 | one turn drops the front block and writes at most one frame: the request for that block, which is then marked requested |
| Peer.ShiftUntilNeededSendsOne | src/peers/peer.js:160-172 | `sendPieceRequest` drops a prefix of the queue and writes at most one frame; `received` is untouched |
| Peer.ShiftUntilNeededRequests | src/peers/peer.js:164-171 | the one frame written is the request for the last block shifted off, and that block is then marked requested |
| Peer.FirstStop | src/peers/peer.js:164-168 | the position of the first queued block that `needed` does not answer "not needed" for: every block before it is answered `Ok(false)`, and the block there (if any) is not |
| Peer.ShiftUntilNeededSearches | src/peers/peer.js:160-172 | the loop equals a search: reset the ledger once, find the first block still needed, drop the queue up to it, then request it or throw. A second `needed` call gives the same ledger back |
| Peer.SearchSkipsUnneeded | src/peers/peer.js:164-168 | shifting off a block the ledger answers "not needed" for leaves the search's outcome unchanged |
| Peer.StopAtWrites | src/peers/peer.js:165-169 | stopping at a block answered "needed" writes its request exactly when nothing throws and the socket is open, then marks the block requested; stopping past the end writes nothing |
| Peer.ShiftUntilNeededAsks | src/peers/peer.js:164-171 | every block shifted off before the last was answered "not needed". A frame is written only for a block answered "needed". With no throw and an open socket, writing nothing means the queue is used up |
| Peer.RequestSent | src/peers/peer.js:166-168 | the needed branch writes the block's request and marks its ledger entry |
| Peer.ChokedSendsNothing | src/peers/peer.js:160-163 | when choked, `sendPieceRequest` changes nothing |
| Peer.ChokeAndUnchoke | src/peers/peer.js:123-131 | choke sets `choked` and ends the socket without writing; unchoke clears it and writes at most one request |
| Peer.HaveQueuesBlocks | src/peers/peer.js:133-139 | a `have` that does not leave exactly one block queued only appends the piece's blocks |
| Peer.HaveWithBadPayloadCrashes | src/peers/peer.js:133-139 | a `have` whose payload is not 4 bytes queues the blocks of the null index. With one-block pieces, the ledger lookup for that block throws |
| Peer.PieceMarksThenStops | src/peers/peer.js:152-158 | the block is marked received before the done check. Once the ledger is done nothing more happens; otherwise at most one request is written |
| Peer.IgnoredMessages | src/peers/peer.js:107-121 | `interested`, `not interested`, `request`, `cancel` and keep-alive frames change nothing |
| Peer.FrameLength | src/peers/peer.js:64-67 | a frame is at least 4 bytes, so every turn of the framing loop removes at least 4 bytes |
| Peer.DrainStep | src/peers/peer.js:69-75 | one turn cuts `messageLength()` bytes off the front and handles them, and the loop goes on unless the handler threw |
| Peer.DrainConsumesPrefix | src/peers/peer.js:61-76 | the framing loop consumes a prefix of the buffer. Unless a handler throws, it stops only when fewer than 4 bytes, or less than the next frame, remain |
| Peer.Peer.constructor | src/peers/peer.js:15-41 | a new peer has an empty buffer, no handshake, is inactive and choked, has an empty queue and has written nothing |
| Peer.Peer.HandleConnect | src/peers/peer.js:52-59 | it writes our handshake and becomes active |
| Peer.Peer.HandleEnd | src/peers/peer.js:78-80 | it only clears `active` |
| Peer.Peer.HandleError | src/peers/peer.js:82-90 | it only ends the socket |
| Peer.Peer.HandleData | src/peers/peer.js:61-76 | the buffer becomes old buffer ++ chunk, then the loop runs to the state `Drain` describes, keeping the ledger valid |
| Peer.Peer.CutFrame | src/peers/peer.js:69-75 | one loop turn shortens the buffer and leaves the state whose drain is the old state's drain |
| Peer.Peer.HandleHandshake | src/peers/peer.js:92-105 | the new state is `HandshakeStep` of the old one (see `HandshakeStepIff`) |
| Peer.Peer.HandleMessage | src/peers/peer.js:107-121 | it dispatches on the id to the handlers below; every other id changes nothing |
| Peer.Peer.OnChoke | src/peers/peer.js:123-126 | the new state is `ChokeStep` of the old one |
| Peer.Peer.OnUnchoke | src/peers/peer.js:128-131 | the new state is `UnchokeStep` of the old one |
| Peer.Peer.OnHave | src/peers/peer.js:133-139 | it queues the piece's blocks and tries a request only when the queue then holds exactly one block |
| Peer.Peer.OnBitfield | src/peers/peer.js:141-150 | it queues the blocks of every advertised piece, in order. It tries a request only when the queue length equals the number of advertised pieces; a null bitfield throws |
| Peer.Peer.OnPiece | src/peers/peer.js:152-158 | it marks the block received in the shared ledger, then tries a request unless the ledger is done |
| Peer.Peer.SendPieceRequest | src/peers/peer.js:160-172 | the new state is `SendPieceRequestStep` of the old one, with the ledger kept valid. By `ShiftUntilNeededSearches`, that state is the request for the first queued block still needed |
| Peer.Peer.ShiftBlock | src/peers/peer.js:164-171 | one loop turn shortens the queue and moves to the turn `ShiftOne` describes, stopping exactly when `ShiftOne` stops |
| Peer.Peer.RequestBlock | src/peers/peer.js:166-169 | a block whose fields fit 32 bits is written as a request and marked requested; otherwise `buildRequest` throws |
| Udp.I32 | src/tracker/udp.js:161 | `writeInt32BE` writes four bytes in two's complement |
| Udp.AnnounceRequest | src/tracker/udp.js:146-165 | the only failure is the RangeError for a `left` past 64 bits or a port past 16 bits |
| Udp.BuildConnectionRequest | src/tracker/udp.js:136-144 | the three writes give exactly `ConnectRequest` |
| Udp.BuildAnnounceRequest | src/tracker/udp.js:146-165 | the thirteen writes give exactly `AnnounceRequest`, RangeError included |
| Udp.ConnectRequestLayout | src/tracker/udp.js:136-144 | the request is 16 bytes: the protocol id 0x41727101980 at 0, action 0 at 8, the transaction id at 12 |
| Udp.AnnounceRequestLayout | src/tracker/udp.js:146-165 | the request is 98 bytes with its fields at 0, 8, 12, 16, 36, 56, 64, 72..87, 88, 92 and 96. These are the connection id, action 1, transaction id, info hash, peer id, zero downloaded, left, zero uploaded/event/ip, key, four 0xFF bytes and port |
| Udp.ParseConnectResponse | src/tracker/udp.js:167-173 | it parses exactly the replies of at least 16 bytes, else throws a RangeError; the connection id fits 64 bits |
| Udp.ConnectResponseRoundTrip | src/tracker/udp.js:167-173 | a connect reply is read back field for field |
| Udp.ParseAddress | src/tracker/udp.js:182-185 | a window parses exactly when it has 6 bytes, else throws a RangeError |
| Udp.ParsePeersWindows | src/tracker/udp.js:182-185 | the map succeeds exactly when every window has 6 bytes, and maps them one to one, in order |
| Udp.AnnounceResponseShape | src/tracker/udp.js:175-187 | a reply parses exactly when it has the 20-byte header and its peer part is empty or at least 6 bytes. The counts come from 8, 12 and 16; there are ceil(n / 6) peers, peer k being read from the 6 bytes at 20 + k |
| Udp.TwoPeersOverlap | src/tracker/udp.js:182 | with two peer records, the second peer reported straddles both records |
| Udp.ParseErrorResponse | src/tracker/udp.js:189-195 | it parses exactly the replies of at least 8 bytes |
| Udp.ErrorResponseText | src/tracker/udp.js:189-195 | an error reply carrying ASCII text yields that text as the message |
| Udp.DottedQuadExample | src/tracker/udp.js:183 | bytes 127, 0, 0, 1 join to "127.0.0.1" |
| Udp.SendStep | src/tracker/udp.js:47-56 | every send stores the fresh transaction id and keeps the connection |
| Udp.SendChoosesRequest | src/tracker/udp.js:47-52 | the request is an announce exactly when the connection id is still valid, a connect request otherwise, and it is the one datagram sent |
| Udp.StartSendsConnect | src/tracker/udp.js:28-39 | a new session first sends a connect request, then waits 15 s or fails with the send's error |
| Udp.TimeoutDoubles | src/tracker/udp.js:109-115 | the first timer waits 15000 ms, and each later one twice the previous |
| Udp.ArmSchedule | src/tracker/udp.js:109-115 | arming with the counter at most UDP_MAX_TRIES sets the timer to 15000 * 2^k and increments the counter. Past it, the session fails with "Server timeout" |
| Udp.OneRetryThenTimeout | src/tracker/udp.js:13-14 | with UDP_MAX_TRIES = 0, the request is re-sent once when the timer fires, and the session then fails with "Server timeout" |
| Udp.WrongTransactionFails | src/tracker/udp.js:64-67 | a reply with another transaction id ends the session with that error and sends nothing |
| Udp.ConnectReplyAnnounces | src/tracker/udp.js:70-74 | a matching connect reply stores the connection id, valid for 90 s, and at once sends an announce with it; the counter restarts, so the timer waits 15 s |
| Udp.AnnounceReplyFinishes | src/tracker/udp.js:75-78 | a matching announce reply that parses ends the session with the parsed data |
| Udp.SendKeepsConsistent | src/tracker/udp.js:47-56 | a send or a timeout leaves the session consistent: the callback has been called at most once, and exactly when the socket is closed, with no timer left |
| Udp.FailKeepsConsistent | src/tracker/udp.js:92-94 | failing an open session leaves it consistent |
| Udp.MessageKeepsConsistent | src/tracker/udp.js:58-90 | handling a reply leaves the session consistent |
| Udp.UdpHandler.constructor | src/tracker/udp.js:28-39 | `handleConnection` stores the configuration and performs the first send (`StartStep`) |
| Udp.UdpHandler.CloseConnection | src/tracker/udp.js:41-45 | it clears the timer, closes the socket and records one callback call |
| Udp.UdpHandler.HandleError | src/tracker/udp.js:92-94 | it closes with `(null, error)` |
| Udp.UdpHandler.ClearTimeout | src/tracker/udp.js:117-120 | it cancels the timer and resets the counter |
| Udp.UdpHandler.SetTimeout | src/tracker/udp.js:109-115 | past UDP_MAX_TRIES it throws "Server timeout" and changes nothing. Otherwise it arms 15000 * 2^k and increments the counter |
| Udp.UdpHandler.SendAnnounceRequest | src/tracker/udp.js:47-56 | the new state is `SendStep` of the old one, and the session stays consistent |
| Udp.UdpHandler.HandleMessage | src/tracker/udp.js:58-90 | the new state is `MessageStep` of the old one, and the session stays consistent |
| Udp.UdpHandler.OnTimeout | src/tracker/udp.js:114 | the fired timer re-sends with the counter where it was |

## Left out

- SHA-1 and bencode (`decodeTorrentFile`, `extractInfoHash`) are foreign library calls. The decoded
  tree and the 20-byte info hash are inputs of `NewTorrentMetadata`.
- `fs`, `net`, `dgram`, real timers, `crypto.randomBytes` and `Date` are not modelled.
  - Socket writes and datagram sends are appended to a list.
  - An armed timer is recorded as its delay.
  - The clock, the random transaction id and the key are supplied in an `Env`.
  - So is the error a send callback reports.
- `decodeUint8Array` and `toString('utf8')` are modelled for ASCII only; any other byte decodes to
  U+FFFD.
- Handshake.Serialize: requires an ASCII protocol string, because multi-byte UTF-8 writes are not
  modelled. `Handshake.HandshakeBytes` has the same requirement.
- Pieces.PieceManager.constructor: requires `infoPieces.length` to be a multiple of 20. Otherwise
  `new Array(n)` throws a RangeError, and that path is not modelled.
- Pieces.Write: an existing row with an entry index past its end is left unchanged. JavaScript would
  grow the row with holes, which later `every` calls skip.
- Pieces.PieceManager.Progress: counts the rows as the model keeps them, so it does not match
  JavaScript once a row has grown. For example, take a one-block piece 0 that is already received,
  then a piece message for piece 0 at offset 32768 (`onPieceMessage`, then `handlePieceResponse`, then `addReceived`).
  JavaScript's row becomes `[true, <hole>, true]`: `isDone` stays true, but `printPercentDone`
  counts 2 of 3 blocks, where the model counts 1 of 1.
- Peer.Peer.constructor: requires the descriptor's info hash to be 20 bytes, its hex form to match,
  and the client id to be 20 bytes (`WellConfigured`).
- Udp.BuildAnnounceRequest: requires the info hash and the peer id to be 20 bytes each
  (`Configured`). Other sizes shift or clip the later fields.
- Udp.UdpHandler.HandleMessage: a reply or timer event after the socket is closed is not modelled.
  Every `UdpHandler` method requires an open session.
- Udp.UdpHandler.SendAnnounceRequest: the send callback is taken as completing synchronously, before
  any reply. The clock reading is the same for `isConnectionIdValid` and the following
  `updateConnectionId`.
- Udp.AnnounceRequest: a negative or fractional port, and a `left` that is not an integer, are not
  modelled; `infoLength` is a natural number.
- Peer `connect` and `close` (the socket's connect call and its 30 s idle timeout) are socket calls
  and are not modelled.
- Peer `handleError` and `handleTimeout` log a line before `socket.end()`. The logging is not modelled.
- `printPercentDone` is modelled by its two counts. The floating-point percent and the console line
  are left out.
- src/torrent/torrent.js, src/tracker/tracker.js, src/client/client.js and index.js are not part of
  this model. They hold the file writer, the tracker URL dispatch, the client registry and the entry
  point.
- Concurrency among peers is not modelled. Node runs handlers one at a time, so the shared ledger is
  one object that handlers use in turn.
