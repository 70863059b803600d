/**
 * The UDP tracker client (BEP 15) of `UdpHandler`: the connect and announce requests, the
 * parsing of the tracker's replies, and the session that matches replies to the last
 * transaction id, re-sends on a doubling timeout and reports one outcome to its callback.
 *
 * The clock, the random transaction id and key, and the outcome of each datagram send are
 * supplied by the caller as an `Env`; timers are recorded as the delay they were armed with.
 */
module Udp {
  import opened Wrappers
  import opened Bytes
  import opened TorrentParser
  import Utils

  const UDP_PROTOCOL_ID: nat := 0x41727101980

  const UDP_ACTION_CONNECT: nat := 0
  const UDP_ACTION_ANNOUNCE: nat := 1
  const UDP_ACTION_SCRAPE: nat := 2
  const UDP_ACTION_ERROR: nat := 3

  const UDP_BASE_TIMEOUT_MS: nat := 15000
  const UDP_MAX_TRIES: nat := 0

  /** A connection id is used for `1.5 * 60 * 1000` ms after the connect reply arrives. */
  const CONNECTION_ID_LIFETIME_MS: nat := 90000

  const U32_LIMIT: nat := 0x1_0000_0000
  const U64_LIMIT: nat := 0x1_0000_0000_0000_0000

  const INVALID_TRANSACTION: string := "Received invalid transaction ID from the server"
  const SCRAPE_UNSUPPORTED: string := "Scrape action is not supported"
  const UNKNOWN_ACTION: string := "Unknown action received from server"
  const SERVER_TIMEOUT: string := "Server timeout"

  /** The client's `config`: its peer id and listening port. */
  datatype Config = Config(peerId: seq<byte>, port: nat)

  /** The 20-byte info hash and peer id the announce request lays out back to back. */
  predicate Configured(meta: TorrentMetadata, config: Config)
  {
    |meta.infoHashBuffer| == 20 && |config.peerId| == 20
  }

  // ---------------------------------------------------------------------
  // Requests

  /** `writeInt32BE(n)`: two's complement in four big-endian bytes. */
  function I32(n: int): (r: seq<byte>)
    requires -0x8000_0000 <= n < 0x8000_0000
    ensures |r| == 4
  {
    if n < 0 then U32(n + U32_LIMIT) else U32(n)
  }

  /** The 16 bytes of `buildConnectionRequest`. */
  function ConnectRequest(transactionId: nat): seq<byte>
    requires transactionId < U32_LIMIT
  {
    U64(UDP_PROTOCOL_ID) + U32(UDP_ACTION_CONNECT) + U32(transactionId)
  }

  /** Bytes 0 to 15 of an announce request: connection id, action 1, transaction id. */
  function AnnounceHeader(connectionId: nat, transactionId: nat): seq<byte>
    requires connectionId < U64_LIMIT && transactionId < U32_LIMIT
  {
    U64(connectionId) + U32(UDP_ACTION_ANNOUNCE) + U32(transactionId)
  }

  /** Bytes 56 to 79: downloaded 0, left, uploaded 0. */
  function AnnounceAmounts(left: nat): seq<byte>
    requires left < U64_LIMIT
  {
    U64(0) + U64(left) + U64(0)
  }

  /** Bytes 80 to 97: event 0, ip 0, key, num_want -1, port. */
  function AnnounceTail(key: nat, port: nat): seq<byte>
    requires key < U32_LIMIT && port < 0x1_0000
  {
    U32(0) + U32(0) + U32(key) + I32(-1) + U16(port)
  }

  /**
   * The bytes of `buildAnnounceRequest`: header, info hash, peer id, amounts and tail.
   * Writing `left` past 64 bits or the port past 16 bits is a RangeError.
   */
  function AnnounceRequest(connectionId: nat, transactionId: nat, infoHash: seq<byte>, peerId: seq<byte>,
                           left: nat, key: nat, port: nat): (r: Result<seq<byte>>)
    requires connectionId < U64_LIMIT && transactionId < U32_LIMIT && key < U32_LIMIT
    ensures r.Throw? ==> r.exception == RangeError
  {
    if left >= U64_LIMIT || port >= 0x1_0000 then Throw(RangeError)
    else Ok(AnnounceHeader(connectionId, transactionId) + infoHash + peerId
            + AnnounceAmounts(left) + AnnounceTail(key, port))
  }

  /** `buildConnectionRequest`: three writes into a zero-filled 16-byte buffer. */
  method BuildConnectionRequest(transactionId: nat) returns (r: seq<byte>)
    requires transactionId < U32_LIMIT
    ensures r == ConnectRequest(transactionId)
  {
    var buf := new byte[16](_ => 0);
    FilledEnds(buf[..], []);
    WriteAt(buf, [], U64(UDP_PROTOCOL_ID), 0);
    ghost var w := [] + U64(UDP_PROTOCOL_ID);
    WriteAt(buf, w, U32(UDP_ACTION_CONNECT), 8);
    w := w + U32(UDP_ACTION_CONNECT);
    WriteAt(buf, w, U32(transactionId), 12);
    w := w + U32(transactionId);
    assert w == ConnectRequest(transactionId);
    FilledEnds(buf[..], w);
    return buf[..];
  }

  /** `buildAnnounceRequest`: thirteen writes into a zero-filled 98-byte buffer, at offsets 0 to 96. */
  method BuildAnnounceRequest(connectionId: nat, transactionId: nat, infoHash: seq<byte>, peerId: seq<byte>,
                              left: nat, key: nat, port: nat) returns (r: Result<seq<byte>>)
    requires connectionId < U64_LIMIT && transactionId < U32_LIMIT && key < U32_LIMIT
    requires |infoHash| == 20 && |peerId| == 20
    ensures r == AnnounceRequest(connectionId, transactionId, infoHash, peerId, left, key, port)
  {
    var buf := new byte[98](_ => 0);
    FilledEnds(buf[..], []);
    WriteHeader(buf, connectionId, transactionId);
    ghost var w := AnnounceHeader(connectionId, transactionId);
    WriteAt(buf, w, infoHash, 16);
    w := w + infoHash;
    WriteAt(buf, w, peerId, 36);
    w := w + peerId;
    if left >= U64_LIMIT {
      return Throw(RangeError);
    }
    WriteAmounts(buf, w, left);
    w := w + AnnounceAmounts(left);
    if port >= 0x1_0000 {
      return Throw(RangeError);
    }
    WriteTail(buf, w, key, port);
    w := w + AnnounceTail(key, port);
    FilledEnds(buf[..], w);
    return Ok(buf[..]);
  }

  /** The writes at offsets 0, 8 and 12. */
  method WriteHeader(buf: array<byte>, connectionId: nat, transactionId: nat)
    requires connectionId < U64_LIMIT && transactionId < U32_LIMIT
    requires buf.Length == 98 && Filled(buf[..], [])
    modifies buf
    ensures Filled(buf[..], AnnounceHeader(connectionId, transactionId))
  {
    WriteAt(buf, [], U64(connectionId), 0);
    ghost var w := [] + U64(connectionId);
    WriteAt(buf, w, U32(UDP_ACTION_ANNOUNCE), 8);
    w := w + U32(UDP_ACTION_ANNOUNCE);
    WriteAt(buf, w, U32(transactionId), 12);
    w := w + U32(transactionId);
    assert w == AnnounceHeader(connectionId, transactionId);
  }

  /** The writes at offsets 56, 64 and 72. */
  method WriteAmounts(buf: array<byte>, ghost prefix: seq<byte>, left: nat)
    requires left < U64_LIMIT
    requires buf.Length == 98 && |prefix| == 56 && Filled(buf[..], prefix)
    modifies buf
    ensures Filled(buf[..], prefix + AnnounceAmounts(left))
  {
    WriteAt(buf, prefix, U64(0), 56);
    ghost var w := prefix + U64(0);
    WriteAt(buf, w, U64(left), 64);
    w := w + U64(left);
    WriteAt(buf, w, U64(0), 72);
    AppendThree(prefix, U64(0), U64(left), U64(0));
  }

  /** The writes at offsets 80, 84, 88, 92 and 96. */
  method WriteTail(buf: array<byte>, ghost prefix: seq<byte>, key: nat, port: nat)
    requires key < U32_LIMIT && port < 0x1_0000
    requires buf.Length == 98 && |prefix| == 80 && Filled(buf[..], prefix)
    modifies buf
    ensures Filled(buf[..], prefix + AnnounceTail(key, port))
  {
    WriteAt(buf, prefix, U32(0), 80);
    ghost var w := prefix + U32(0);
    WriteAt(buf, w, U32(0), 84);
    w := w + U32(0);
    WriteAt(buf, w, U32(key), 88);
    w := w + U32(key);
    WriteAt(buf, w, I32(-1), 92);
    w := w + I32(-1);
    WriteAt(buf, w, U16(port), 96);
    w := w + U16(port);
    assert w == prefix + AnnounceTail(key, port);
  }

  /** A tracker reading the connect request finds the protocol id, action 0 and the transaction id. */
  lemma ConnectRequestLayout(transactionId: nat)
    requires transactionId < U32_LIMIT
    ensures var r := ConnectRequest(transactionId);
      && |r| == 16
      && FromBE(r[..8]) == UDP_PROTOCOL_ID
      && FromBE(r[8..12]) == UDP_ACTION_CONNECT
      && FromBE(r[12..]) == transactionId
  {
    var r := ConnectRequest(transactionId);
    Pow256Values();
    assert r[..8] == BE(UDP_PROTOCOL_ID, 8);
    assert r[8..12] == BE(UDP_ACTION_CONNECT, 4);
    assert r[12..] == BE(transactionId, 4);
    FromBEofBE(UDP_PROTOCOL_ID, 8);
    FromBEofBE(UDP_ACTION_CONNECT, 4);
    FromBEofBE(transactionId, 4);
  }

  /** -1 as a 32-bit field is four 0xFF bytes. */
  lemma MinusOneBytes()
    ensures I32(-1) == [255, 255, 255, 255]
  {
    Pow256Values();
    assert BE(0xFFFF_FFFF, 4) == BE(0xFF_FFFF, 3) + [255];
    assert BE(0xFF_FFFF, 3) == BE(0xFFFF, 2) + [255];
    assert BE(0xFFFF, 2) == BE(0xFF, 1) + [255];
    assert BE(0xFF, 1) == BE(0, 0) + [255];
  }

  lemma AnnounceHeaderLayout(connectionId: nat, transactionId: nat)
    requires connectionId < U64_LIMIT && transactionId < U32_LIMIT
    ensures var h := AnnounceHeader(connectionId, transactionId);
      && |h| == 16
      && FromBE(h[..8]) == connectionId
      && FromBE(h[8..12]) == UDP_ACTION_ANNOUNCE
      && FromBE(h[12..]) == transactionId
  {
    var h := AnnounceHeader(connectionId, transactionId);
    Pow256Values();
    assert h[..8] == BE(connectionId, 8);
    assert h[8..12] == BE(UDP_ACTION_ANNOUNCE, 4);
    assert h[12..] == BE(transactionId, 4);
    FromBEofBE(connectionId, 8);
    FromBEofBE(UDP_ACTION_ANNOUNCE, 4);
    FromBEofBE(transactionId, 4);
  }

  lemma AnnounceAmountsLayout(left: nat)
    requires left < U64_LIMIT
    ensures var a := AnnounceAmounts(left);
      && |a| == 24
      && a[..8] == Zeros(8)
      && FromBE(a[8..16]) == left
      && a[16..] == Zeros(8)
  {
    var a := AnnounceAmounts(left);
    Pow256Values();
    ZerosBE(8);
    assert a[..8] == BE(0, 8);
    assert a[8..16] == BE(left, 8);
    assert a[16..] == BE(0, 8);
    FromBEofBE(left, 8);
  }

  lemma AnnounceTailLayout(key: nat, port: nat)
    requires key < U32_LIMIT && port < 0x1_0000
    ensures var t := AnnounceTail(key, port);
      && |t| == 18
      && t[..8] == Zeros(8)
      && FromBE(t[8..12]) == key
      && t[12..16] == [255, 255, 255, 255]
      && FromBE(t[16..]) == port
  {
    var t := AnnounceTail(key, port);
    Pow256Values();
    MinusOneBytes();
    ZerosBE(4);
    assert t[..8] == Zeros(4) + Zeros(4);
    assert t[8..12] == BE(key, 4);
    assert t[12..16] == I32(-1);
    assert t[16..] == BE(port, 2);
    FromBEofBE(key, 4);
    FromBEofBE(port, 2);
  }

  /**
   * A tracker reading an announce request finds every field at its offset: the ids at 0,
   * 8 and 12, the info hash at 16, the peer id at 36, zero bytes for downloaded at 56,
   * left at 64, zero bytes for uploaded, event and ip from 72 to 87, the key at 88,
   * num_want -1 at 92 and the port at 96.
   */
  lemma AnnounceRequestLayout(connectionId: nat, transactionId: nat, infoHash: seq<byte>, peerId: seq<byte>,
                              left: nat, key: nat, port: nat)
    requires connectionId < U64_LIMIT && transactionId < U32_LIMIT && key < U32_LIMIT
    requires |infoHash| == 20 && |peerId| == 20
    requires left < U64_LIMIT && port < 0x1_0000
    ensures var r := AnnounceRequest(connectionId, transactionId, infoHash, peerId, left, key, port);
      && r.Ok? && |r.value| == 98
      && FromBE(r.value[..8]) == connectionId
      && FromBE(r.value[8..12]) == UDP_ACTION_ANNOUNCE
      && FromBE(r.value[12..16]) == transactionId
      && r.value[16..36] == infoHash
      && r.value[36..56] == peerId
      && r.value[56..64] == Zeros(8)
      && FromBE(r.value[64..72]) == left
      && r.value[72..88] == Zeros(16)
      && FromBE(r.value[88..92]) == key
      && r.value[92..96] == [255, 255, 255, 255]
      && FromBE(r.value[96..]) == port
  {
    var h := AnnounceHeader(connectionId, transactionId);
    var a := AnnounceAmounts(left);
    var t := AnnounceTail(key, port);
    AnnounceHeaderLayout(connectionId, transactionId);
    AnnounceAmountsLayout(left);
    AnnounceTailLayout(key, port);
    RequestSlices(h, infoHash, peerId, a, t);
    assert Zeros(8) + Zeros(8) == Zeros(16);
  }

  /** Where the five groups of an announce request sit once concatenated. */
  lemma RequestSlices(h: seq<byte>, i: seq<byte>, p: seq<byte>, a: seq<byte>, t: seq<byte>)
    requires |h| == 16 && |i| == 20 && |p| == 20 && |a| == 24 && |t| == 18
    ensures var r := h + i + p + a + t;
      && |r| == 98
      && r[..8] == h[..8] && r[8..12] == h[8..12] && r[12..16] == h[12..]
      && r[16..36] == i && r[36..56] == p
      && r[56..64] == a[..8] && r[64..72] == a[8..16] && r[72..88] == a[16..] + t[..8]
      && r[88..92] == t[8..12] && r[92..96] == t[12..16] && r[96..] == t[16..]
  {
    var r := h + i + p + a + t;
    assert r[..16] == h && r[16..36] == i && r[36..56] == p;
    assert r[56..80] == a && r[80..] == t;
  }

  /** Zero in n bytes is n zero bytes. */
  lemma {:induction false} ZerosBE(n: nat)
    ensures BE(0, n) == Zeros(n)
  {
    if n > 0 {
      ZerosBE(n - 1);
    }
  }

  // ---------------------------------------------------------------------
  // Replies

  datatype ConnectResponse = ConnectResponse(action: nat, transactionId: nat, connectionId: nat)

  /** One peer of an announce reply: `ip` as dotted decimal text and the port. */
  datatype PeerAddress = PeerAddress(ip: string, port: nat)

  datatype AnnounceResponse = AnnounceResponse(action: nat, transactionId: nat, interval: nat,
                                               leechers: nat, seeders: nat, peers: seq<PeerAddress>)

  datatype ErrorResponse = ErrorResponse(action: nat, transactionId: nat, message: string)

  /** `parseConnectionResponse`: reading the 64-bit connection id needs 16 bytes (RangeError otherwise). */
  function ParseConnectResponse(response: seq<byte>): (r: Result<ConnectResponse>)
    ensures r.Ok? <==> |response| >= 16
    ensures r.Throw? ==> r.exception == RangeError
    ensures r.Ok? ==> r.value.connectionId < U64_LIMIT
  {
    if |response| < 16 then Throw(RangeError)
    else
      Pow256Values();
      Ok(ConnectResponse(FromBE(response[..4]), FromBE(response[4..8]), FromBE(response[8..16])))
  }

  function DigitChar(d: nat): char
    requires d < 10
  {
    "0123456789"[d]
  }

  /** A natural number as JavaScript prints it: decimal digits, most significant first. */
  function Decimal(n: nat): (s: string)
    ensures 1 <= |s|
    decreases n
  {
    if n < 10 then [DigitChar(n)] else Decimal(n / 10) + [DigitChar(n % 10)]
  }

  /** `address.subarray(0, 4).join('.')`. */
  function DottedQuad(ip: seq<byte>): string
    requires |ip| == 4
  {
    Decimal(ip[0]) + "." + Decimal(ip[1]) + "." + Decimal(ip[2]) + "." + Decimal(ip[3])
  }

  /** One element of the `map` over the windows: `readUInt16BE(4)` needs six bytes. */
  function ParseAddress(address: seq<byte>): (r: Result<PeerAddress>)
    ensures r.Ok? <==> |address| >= 6
    ensures r.Throw? ==> r.exception == RangeError
  {
    if |address| < 6 then Throw(RangeError)
    else Ok(PeerAddress(DottedQuad(address[..4]), FromBE(address[4..6])))
  }

  /** The `map` over the windows, in order; the first short window throws. */
  function ParsePeers(windows: seq<seq<byte>>): Result<seq<PeerAddress>>
  {
    if windows == [] then Ok([])
    else
      var head := ParseAddress(windows[0]);
      if head.Throw? then Throw(head.exception)
      else
        var tail := ParsePeers(windows[1..]);
        if tail.Throw? then Throw(tail.exception) else Ok([head.value] + tail.value)
  }

  /** `parseAnnounceResponse`: five 32-bit fields, then one peer per window of `chunk(response.subarray(20), 6)`. */
  function ParseAnnounceResponse(response: seq<byte>): (r: Result<AnnounceResponse>)
  {
    if |response| < 20 then Throw(RangeError)
    else
      var peers := ParsePeers(Utils.Chunk(response[20..], 6));
      if peers.Throw? then Throw(peers.exception)
      else Ok(AnnounceResponse(FromBE(response[..4]), FromBE(response[4..8]), FromBE(response[8..12]),
                               FromBE(response[12..16]), FromBE(response[16..20]), peers.value))
  }

  /** `parseErrorResponse`: the message is the text from offset 8 on. */
  function ParseErrorResponse(response: seq<byte>): (r: Result<ErrorResponse>)
    ensures r.Ok? <==> |response| >= 8
  {
    if |response| < 8 then Throw(RangeError)
    else Ok(ErrorResponse(FromBE(response[..4]), FromBE(response[4..8]), DecodeUtf8(response[8..])))
  }

  /** The windows are mapped one to one, and the map throws exactly when a window is short. */
  lemma {:induction false} ParsePeersWindows(windows: seq<seq<byte>>)
    ensures ParsePeers(windows).Ok? <==> forall k :: 0 <= k < |windows| ==> |windows[k]| >= 6
    ensures ParsePeers(windows).Throw? ==> ParsePeers(windows).exception == RangeError
    ensures ParsePeers(windows).Ok? ==>
      |ParsePeers(windows).value| == |windows|
      && forall k :: 0 <= k < |windows| ==> ParsePeers(windows).value[k] == ParseAddress(windows[k]).value
    decreases |windows|
  {
    if windows != [] {
      ParsePeersWindows(windows[1..]);
      if ParsePeers(windows).Ok? {
        var rest := ParsePeers(windows[1..]).value;
        forall k | 0 <= k < |windows|
          ensures ParsePeers(windows).value[k] == ParseAddress(windows[k]).value
        {
          if k > 0 {
            assert windows[k] == windows[1..][k - 1];
          }
        }
      } else if ParseAddress(windows[0]).Ok? {
        var k :| 0 <= k < |windows[1..]| && |windows[1..][k]| < 6;
        assert windows[k + 1] == windows[1..][k];
      }
    }
  }

  /**
   * An announce reply parses exactly when it has its 20-byte header and its peer part is
   * empty or at least 6 bytes long. Peer k is then read from the 6 bytes at offset 20 + k:
   * consecutive peers overlap in five bytes, and there are ceil(n / 6) of them.
   */
  lemma AnnounceResponseShape(response: seq<byte>)
    ensures var n := |response| - 20;
      ParseAnnounceResponse(response).Ok? <==> n >= 0 && (n == 0 || n >= 6)
    ensures ParseAnnounceResponse(response).Throw? ==> ParseAnnounceResponse(response).exception == RangeError
    ensures ParseAnnounceResponse(response).Ok? ==>
      var a := ParseAnnounceResponse(response).value;
      && a.interval == FromBE(response[8..12])
      && a.leechers == FromBE(response[12..16])
      && a.seeders == FromBE(response[16..20])
      && |a.peers| == Utils.CeilDiv(|response| - 20, 6)
      && forall k :: 0 <= k < |a.peers| ==>
           20 + k + 6 <= |response| && a.peers[k] == ParseAddress(response[20 + k..20 + k + 6]).value
  {
    if |response| >= 20 {
      var rest := response[20..];
      var windows := Utils.Chunk(rest, 6);
      ParsePeersWindows(windows);
      if |rest| >= 6 {
        Utils.ChunkFullWindows(rest, 6);
        forall k | 0 <= k < |windows|
          ensures 20 + k + 6 <= |response| && windows[k] == response[20 + k..20 + k + 6]
        {
          assert |windows[k]| == 6;
        }
      } else if |rest| > 0 {
        Utils.CeilDivBounds(|rest|, 6);
        assert |windows[0]| < 6;
      } else {
        Utils.ChunkEmpty(rest, 6);
      }
    }
  }

  /**
   * Two peer records in a reply: the second peer reported is read from the last five bytes
   * of the first record and the first byte of the second, not from the second record.
   */
  lemma TwoPeersOverlap(header: seq<byte>, p: seq<byte>, q: seq<byte>)
    requires |header| == 20 && |p| == 6 && |q| == 6
    ensures var r := ParseAnnounceResponse(header + p + q);
      r.Ok? && r.value.peers == [ParseAddress(p).value, ParseAddress(p[1..] + q[..1]).value]
  {
    var response := header + p + q;
    AnnounceResponseShape(response);
    Utils.CeilDivExact(12, 6);
    var peers := ParseAnnounceResponse(response).value.peers;
    assert response[20..26] == p;
    assert response[21..27] == p[1..] + q[..1];
    assert peers == [peers[0], peers[1]];
  }

  /** The connect reply a tracker sends is read back field for field. */
  lemma ConnectResponseRoundTrip(action: nat, transactionId: nat, connectionId: nat, extra: seq<byte>)
    requires action < U32_LIMIT && transactionId < U32_LIMIT && connectionId < U64_LIMIT
    ensures ParseConnectResponse(U32(action) + U32(transactionId) + U64(connectionId) + extra)
         == Ok(ConnectResponse(action, transactionId, connectionId))
  {
    var r := U32(action) + U32(transactionId) + U64(connectionId) + extra;
    Pow256Values();
    assert r[..4] == BE(action, 4) && r[4..8] == BE(transactionId, 4) && r[8..16] == BE(connectionId, 8);
    FromBEofBE(action, 4);
    FromBEofBE(transactionId, 4);
    FromBEofBE(connectionId, 8);
  }

  /** An error reply carrying ASCII text yields that text as the message. */
  lemma ErrorResponseText(action: nat, transactionId: nat, text: string)
    requires action < U32_LIMIT && transactionId < U32_LIMIT && IsAscii(text)
    ensures var r := ParseErrorResponse(U32(action) + U32(transactionId) + AsciiBytes(text));
      r.Ok? && r.value.message == text
  {
    var r := U32(action) + U32(transactionId) + AsciiBytes(text);
    assert r[8..] == AsciiBytes(text);
    DecodeAsciiBytes(text);
  }

  lemma DottedQuadExample()
    ensures DottedQuad([127, 0, 0, 1]) == "127.0.0.1"
  {
    assert Decimal(127) == Decimal(12) + ['7'];
    assert Decimal(12) == Decimal(1) + ['2'];
  }

  // ---------------------------------------------------------------------
  // The session

  /** A connection id and the time (ms) up to which it may be used. */
  datatype Connection = Connection(id: nat, expiration: int)

  /** One call of the callback: `(data, null)` or `(null, error)`. */
  datatype Completion = Completion(data: Option<AnnounceResponse>, error: Option<Exception>)

  /**
   * What the outside world supplies to one `sendAnnounceRequest`: the clock reading, the
   * random transaction id and key, and the error (if any) the socket's send callback reports.
   */
  datatype Env = Env(now: int, transactionId: nat, key: nat, sendError: Option<Exception>)

  predicate EnvOk(env: Env)
  {
    env.transactionId < U32_LIMIT && env.key < U32_LIMIT
  }

  /**
   * The fields of a `UdpHandler`: the transaction id, the try counter, the connection id and
   * its expiry, the armed timer's delay, whether the socket is closed, the datagrams sent,
   * the callback's calls, and whether an exception escaped a handler.
   */
  datatype Tracker = Tracker(transactionId: nat, triesCounter: nat, connection: Option<Connection>,
                             timer: Option<nat>, closed: bool, sent: seq<seq<byte>>,
                             completions: seq<Completion>, threw: bool)

  /** The callback is called once, exactly when the socket is closed, and closing stops the timer. */
  predicate Consistent(s: Tracker)
  {
    && s.transactionId < U32_LIMIT
    && (s.connection.Some? ==> s.connection.value.id < U64_LIMIT)
    && |s.completions| <= 1
    && (s.closed <==> |s.completions| == 1)
    && (s.closed ==> s.timer.None? && s.triesCounter == 0)
  }

  function Pow2(k: nat): (r: nat)
    ensures r >= 1
  {
    if k == 0 then 1 else 2 * Pow2(k - 1)
  }

  /** The delay armed when `triesCounter` is k: `15000 * 2 ** k`. */
  function TimeoutFor(k: nat): nat
  {
    UDP_BASE_TIMEOUT_MS * Pow2(k)
  }

  /** `clearTimeout`: the timer is cancelled and the counter reset. */
  function ClearTimeoutStep(s: Tracker): Tracker
  {
    s.(timer := None, triesCounter := 0)
  }

  /** `closeConnection(data, error)`: clear the timer, close the socket, call back once. */
  function Close(s: Tracker, c: Completion): Tracker
  {
    ClearTimeoutStep(s).(closed := true, completions := s.completions + [c])
  }

  /** `handleError(error)`. */
  function Fail(s: Tracker, e: Exception): Tracker
  {
    Close(s, Completion(None, Some(e)))
  }

  /** `setTimeout(sendAnnounceRequest)`, or through `.catch` the terminal error once the tries are used up. */
  function ArmStep(s: Tracker): Tracker
  {
    if s.triesCounter > UDP_MAX_TRIES then Fail(s, Error(SERVER_TIMEOUT))
    else s.(timer := Some(TimeoutFor(s.triesCounter)), triesCounter := s.triesCounter + 1)
  }

  /** `isConnectionIdValid`: `now <= connectionExpiration`, false while no expiry is set. */
  predicate ConnectionValid(connection: Option<Connection>, now: int)
  {
    connection.Some? && now <= connection.value.expiration
  }

  /** The request `sendAnnounceRequest` builds: announce with a valid connection id, connect otherwise. */
  function RequestFor(meta: TorrentMetadata, config: Config, connection: Option<Connection>, env: Env): Result<seq<byte>>
    requires EnvOk(env) && (connection.Some? ==> connection.value.id < U64_LIMIT)
  {
    if ConnectionValid(connection, env.now)
    then AnnounceRequest(connection.value.id, env.transactionId, meta.infoHashBuffer, config.peerId,
                         meta.infoLength, env.key, config.port)
    else Ok(ConnectRequest(env.transactionId))
  }

  /**
   * `sendAnnounceRequest`: a fresh transaction id, the request sent, then the timer armed
   * when the send succeeded or the session failed with the send's error.
   */
  function SendStep(meta: TorrentMetadata, config: Config, s: Tracker, env: Env): (r: Tracker)
    requires EnvOk(env) && (s.connection.Some? ==> s.connection.value.id < U64_LIMIT)
    ensures r.transactionId == env.transactionId && r.connection == s.connection
  {
    var s1 := s.(transactionId := env.transactionId);
    var request := RequestFor(meta, config, s.connection, env);
    if request.Throw? then s1.(threw := true)
    else
      var s2 := s1.(sent := s1.sent + [request.value]);
      if env.sendError.Some? then Fail(s2, env.sendError.value) else ArmStep(s2)
  }

  /** `handleConnection`: a new session sends its first request. */
  function StartStep(meta: TorrentMetadata, config: Config, env: Env): Tracker
    requires EnvOk(env)
  {
    SendStep(meta, config, Tracker(0, 0, None, None, false, [], [], false), env)
  }

  /**
   * `handleMessage`: the timer is cleared, then a reply is checked against the last
   * transaction id and dispatched on its action. A reply too short for the fields read
   * throws out of the handler.
   */
  function MessageStep(meta: TorrentMetadata, config: Config, s: Tracker, response: seq<byte>, env: Env): Tracker
    requires EnvOk(env) && (s.connection.Some? ==> s.connection.value.id < U64_LIMIT)
  {
    var s1 := ClearTimeoutStep(s);
    if |response| < 8 then s1.(threw := true)
    else
      var action := FromBE(response[..4]);
      if FromBE(response[4..8]) != s.transactionId then Fail(s1, Error(INVALID_TRANSACTION))
      else if action == UDP_ACTION_CONNECT then
        var c := ParseConnectResponse(response);
        if c.Throw? then s1.(threw := true)
        else
          var connection := Connection(c.value.connectionId, env.now + CONNECTION_ID_LIFETIME_MS);
          SendStep(meta, config, s1.(connection := Some(connection)), env)
      else if action == UDP_ACTION_ANNOUNCE then
        var a := ParseAnnounceResponse(response);
        if a.Throw? then s1.(threw := true) else Close(s1, Completion(Some(a.value), None))
      else if action == UDP_ACTION_SCRAPE then Fail(s1, Error(SCRAPE_UNSUPPORTED))
      else if action == UDP_ACTION_ERROR then Fail(s1, Error(ParseErrorResponse(response).value.message))
      else Fail(s1, Error(UNKNOWN_ACTION))
  }

  /** The armed timer fires: `sendAnnounceRequest` again, with the counter where it was. */
  function TimeoutStep(meta: TorrentMetadata, config: Config, s: Tracker, env: Env): Tracker
    requires EnvOk(env) && (s.connection.Some? ==> s.connection.value.id < U64_LIMIT)
  {
    SendStep(meta, config, s.(timer := None), env)
  }

  // ---------------------------------------------------------------------
  // Properties of the session

  /** The k-th timer armed since the last reset waits 15000 * 2^k ms. */
  lemma {:induction false} TimeoutDoubles(k: nat)
    ensures TimeoutFor(0) == 15000
    ensures TimeoutFor(k + 1) == 2 * TimeoutFor(k)
  {
    assert Pow2(k + 1) == 2 * Pow2(k);
  }

  /**
   * Arming succeeds while the counter is at most UDP_MAX_TRIES, with the delay for that
   * count; past it the session fails with "Server timeout".
   */
  lemma ArmSchedule(s: Tracker)
    requires !s.closed
    ensures s.triesCounter <= UDP_MAX_TRIES ==>
      ArmStep(s) == s.(timer := Some(UDP_BASE_TIMEOUT_MS * Pow2(s.triesCounter)), triesCounter := s.triesCounter + 1)
    ensures s.triesCounter > UDP_MAX_TRIES ==>
      ArmStep(s).closed && ArmStep(s).timer.None?
      && ArmStep(s).completions == s.completions + [Completion(None, Some(Error(SERVER_TIMEOUT)))]
  {
  }

  /**
   * Every send uses a fresh transaction id, and the request is an announce exactly when
   * the connection id is still valid, a connect request otherwise; it is the only datagram
   * sent.
   */
  lemma SendChoosesRequest(meta: TorrentMetadata, config: Config, s: Tracker, env: Env)
    requires EnvOk(env) && (s.connection.Some? ==> s.connection.value.id < U64_LIMIT) && !s.threw
    ensures var r := SendStep(meta, config, s, env);
      && r.transactionId == env.transactionId
      && (!r.threw ==> r.sent == s.sent + [RequestFor(meta, config, s.connection, env).value])
      && (!ConnectionValid(s.connection, env.now) ==> !r.threw && r.sent == s.sent + [ConnectRequest(env.transactionId)])
      && (r.threw ==> r.sent == s.sent && ConnectionValid(s.connection, env.now))
  {
  }

  /**
   * A new session sends a connect request first (no connection id is valid before the
   * first connect reply), then waits 15 s, or fails with the send's error.
   */
  lemma StartSendsConnect(meta: TorrentMetadata, config: Config, env: Env)
    requires EnvOk(env)
    ensures var r := StartStep(meta, config, env);
      && r.sent == [ConnectRequest(env.transactionId)] && !r.threw && r.connection.None?
      && (env.sendError.None? ==> !r.closed && r.timer == Some(15000) && r.triesCounter == 1)
      && (env.sendError.Some? ==> r.closed && r.completions == [Completion(None, env.sendError)])
  {
  }

  /**
   * With UDP_MAX_TRIES = 0 a request is re-sent once: when the first timer fires the
   * request goes out again and the session then fails with "Server timeout".
   */
  lemma OneRetryThenTimeout(meta: TorrentMetadata, config: Config, env1: Env, env2: Env)
    requires EnvOk(env1) && EnvOk(env2) && env1.sendError.None? && env2.sendError.None?
    ensures var s := StartStep(meta, config, env1);
      var r := TimeoutStep(meta, config, s, env2);
      && s.timer.Some?
      && |r.sent| == 2 && r.sent[1] == ConnectRequest(env2.transactionId)
      && r.closed && r.completions == [Completion(None, Some(Error(SERVER_TIMEOUT)))]
  {
  }

  /** A reply whose transaction id is not the last one generated ends the session with an error, sending nothing. */
  lemma WrongTransactionFails(meta: TorrentMetadata, config: Config, s: Tracker, response: seq<byte>, env: Env)
    requires EnvOk(env) && (s.connection.Some? ==> s.connection.value.id < U64_LIMIT)
    requires |response| >= 8 && FromBE(response[4..8]) != s.transactionId && !s.threw
    ensures var r := MessageStep(meta, config, s, response, env);
      && r.closed && r.sent == s.sent && !r.threw
      && r.completions == s.completions + [Completion(None, Some(Error(INVALID_TRANSACTION)))]
  {
  }

  /**
   * A matching connect reply stores the connection id, valid for 90 s from now, and at
   * once sends an announce request with it under a fresh transaction id; the try counter
   * starts again from zero, so the next timer waits 15 s.
   */
  lemma ConnectReplyAnnounces(meta: TorrentMetadata, config: Config, s: Tracker, connectionId: nat, extra: seq<byte>, env: Env)
    requires EnvOk(env) && (s.connection.Some? ==> s.connection.value.id < U64_LIMIT)
    requires s.transactionId < U32_LIMIT && connectionId < U64_LIMIT && !s.closed
    requires Configured(meta, config) && meta.infoLength < U64_LIMIT && config.port < 0x1_0000
    ensures var r := MessageStep(meta, config, s, U32(UDP_ACTION_CONNECT) + U32(s.transactionId) + U64(connectionId) + extra, env);
      && r.connection == Some(Connection(connectionId, env.now + 90000))
      && r.transactionId == env.transactionId
      && r.sent == s.sent + [AnnounceRequest(connectionId, env.transactionId, meta.infoHashBuffer, config.peerId,
                                             meta.infoLength, env.key, config.port).value]
      && (env.sendError.None? ==> !r.closed && r.timer == Some(15000) && r.triesCounter == 1)
  {
    ConnectReplyStores(meta, config, s, connectionId, extra, env);
    AnnounceOnFreshConnection(meta, config, ClearTimeoutStep(s).(connection := Some(Connection(connectionId, env.now + 90000))), env);
  }

  /** A matching connect reply clears the timer, stores the connection and sends again. */
  lemma ConnectReplyStores(meta: TorrentMetadata, config: Config, s: Tracker, connectionId: nat, extra: seq<byte>, env: Env)
    requires EnvOk(env) && (s.connection.Some? ==> s.connection.value.id < U64_LIMIT)
    requires s.transactionId < U32_LIMIT && connectionId < U64_LIMIT
    ensures MessageStep(meta, config, s, U32(UDP_ACTION_CONNECT) + U32(s.transactionId) + U64(connectionId) + extra, env)
      == SendStep(meta, config, ClearTimeoutStep(s).(connection := Some(Connection(connectionId, env.now + 90000))), env)
  {
    var response := U32(UDP_ACTION_CONNECT) + U32(s.transactionId) + U64(connectionId) + extra;
    ConnectResponseRoundTrip(UDP_ACTION_CONNECT, s.transactionId, connectionId, extra);
    Pow256Values();
    assert response[..4] == BE(UDP_ACTION_CONNECT, 4) && response[4..8] == BE(s.transactionId, 4);
    FromBEofBE(UDP_ACTION_CONNECT, 4);
    FromBEofBE(s.transactionId, 4);
  }

  /** On a connection made just now, a send is an announce request, and a clean one arms a 15 s timer. */
  lemma AnnounceOnFreshConnection(meta: TorrentMetadata, config: Config, s: Tracker, env: Env)
    requires EnvOk(env) && s.connection.Some? && s.connection.value.id < U64_LIMIT
    requires s.connection.value.expiration == env.now + 90000 && s.triesCounter == 0 && !s.closed
    requires Configured(meta, config) && meta.infoLength < U64_LIMIT && config.port < 0x1_0000
    ensures var r := SendStep(meta, config, s, env);
      && r.sent == s.sent + [AnnounceRequest(s.connection.value.id, env.transactionId, meta.infoHashBuffer, config.peerId,
                                             meta.infoLength, env.key, config.port).value]
      && (env.sendError.None? ==> !r.closed && r.timer == Some(15000) && r.triesCounter == 1)
  {
  }

  /** A matching announce reply that parses ends the session with the parsed data. */
  lemma AnnounceReplyFinishes(meta: TorrentMetadata, config: Config, s: Tracker, response: seq<byte>, env: Env)
    requires EnvOk(env) && (s.connection.Some? ==> s.connection.value.id < U64_LIMIT)
    requires |response| >= 8 && FromBE(response[..4]) == UDP_ACTION_ANNOUNCE && FromBE(response[4..8]) == s.transactionId
    requires ParseAnnounceResponse(response).Ok? && !s.threw
    ensures var r := MessageStep(meta, config, s, response, env);
      && r.closed && r.sent == s.sent && !r.threw
      && r.completions == s.completions + [Completion(Some(ParseAnnounceResponse(response).value), None)]
  {
  }

  /** A send on an open session leaves it consistent: at most one callback, given exactly on close. */
  lemma SendKeepsConsistent(meta: TorrentMetadata, config: Config, s: Tracker, env: Env)
    requires Consistent(s) && !s.closed && EnvOk(env)
    ensures Consistent(SendStep(meta, config, s, env))
    ensures s.timer.Some? ==> Consistent(TimeoutStep(meta, config, s, env))
  {
  }

  /** Failing an open session leaves it consistent. */
  lemma FailKeepsConsistent(s: Tracker, e: Exception)
    requires Consistent(s) && !s.closed
    ensures Consistent(Fail(s, e))
  {
  }

  /** Handling a reply on an open session leaves it consistent. */
  lemma MessageKeepsConsistent(meta: TorrentMetadata, config: Config, s: Tracker, response: seq<byte>, env: Env)
    requires Consistent(s) && !s.closed && EnvOk(env)
    ensures Consistent(MessageStep(meta, config, s, response, env))
  {
    var s1 := ClearTimeoutStep(s);
    if |response| >= 8 && FromBE(response[4..8]) == s.transactionId && FromBE(response[..4]) == UDP_ACTION_CONNECT {
      var c := ParseConnectResponse(response);
      if c.Ok? {
        var connection := Connection(c.value.connectionId, env.now + CONNECTION_ID_LIFETIME_MS);
        SendKeepsConsistent(meta, config, s1.(connection := Some(connection)), env);
      }
    }
  }

  // ---------------------------------------------------------------------
  // The handler object

  class UdpHandler {
    var transactionId: nat
    var triesCounter: nat
    var connection: Option<Connection>
    var timer: Option<nat>
    var closed: bool
    var sent: seq<seq<byte>>
    var completions: seq<Completion>
    var threw: bool
    const config: Config
    const metadata: TorrentMetadata

    function State(): Tracker
      reads this
    {
      Tracker(transactionId, triesCounter, connection, timer, closed, sent, completions, threw)
    }

    ghost predicate Valid()
      reads this
    {
      Configured(metadata, config) && Consistent(State())
    }

    /** `handleConnection`: store the configuration and send the first request. */
    constructor (config: Config, metadata: TorrentMetadata, env: Env)
      requires Configured(metadata, config) && EnvOk(env)
      ensures Valid() && this.config == config && this.metadata == metadata
      ensures State() == StartStep(metadata, config, env)
    {
      this.config := config;
      this.metadata := metadata;
      transactionId := 0;
      triesCounter := 0;
      connection := None;
      timer := None;
      closed := false;
      sent := [];
      completions := [];
      threw := false;
      new;
      SendAnnounceRequest(env);
    }

    /** `closeConnection(data, error)`. */
    method CloseConnection(c: Completion)
      requires Valid() && !closed
      modifies this
      ensures Valid() && State() == Close(old(State()), c)
    {
      ClearTimeout();
      closed := true;
      completions := completions + [c];
    }

    /** `handleError(error)`, also the socket's `error` event. */
    method HandleError(e: Exception)
      requires Valid() && !closed
      modifies this
      ensures Valid() && State() == Fail(old(State()), e)
    {
      CloseConnection(Completion(None, Some(e)));
    }

    /** `clearTimeout`. */
    method ClearTimeout()
      modifies this
      ensures State() == ClearTimeoutStep(old(State()))
    {
      timer := None;
      triesCounter := 0;
    }

    /** `setTimeout(sendAnnounceRequest)`: arm with `15000 * 2 ** triesCounter++`, or throw past the last try. */
    method SetTimeout() returns (r: Result<nat>)
      modifies this
      ensures old(triesCounter) > UDP_MAX_TRIES ==> r == Throw(Error(SERVER_TIMEOUT)) && State() == old(State())
      ensures old(triesCounter) <= UDP_MAX_TRIES ==>
        r == Ok(TimeoutFor(old(triesCounter)))
        && State() == old(State()).(timer := Some(r.value), triesCounter := old(triesCounter) + 1)
    {
      if triesCounter > UDP_MAX_TRIES {
        return Throw(Error(SERVER_TIMEOUT));
      }
      var timeout := UDP_BASE_TIMEOUT_MS * Pow2(triesCounter);
      triesCounter := triesCounter + 1;
      timer := Some(timeout);
      return Ok(timeout);
    }

    /** The request of `sendAnnounceRequest`, built under the transaction id just stored. */
    method BuildRequest(env: Env) returns (request: Result<seq<byte>>)
      requires Configured(metadata, config) && EnvOk(env) && transactionId == env.transactionId
      requires connection.Some? ==> connection.value.id < U64_LIMIT
      ensures request == RequestFor(metadata, config, connection, env)
    {
      if connection.Some? && env.now <= connection.value.expiration {
        request := BuildAnnounceRequest(connection.value.id, transactionId, metadata.infoHashBuffer, config.peerId,
                                        metadata.infoLength, env.key, config.port);
      } else {
        var bytes := BuildConnectionRequest(transactionId);
        request := Ok(bytes);
      }
    }

    /** `sendAnnounceRequest`. */
    method SendAnnounceRequest(env: Env)
      requires Valid() && !closed && !threw && EnvOk(env)
      modifies this
      ensures Valid() && State() == SendStep(metadata, config, old(State()), env)
    {
      ghost var s0 := State();
      SendKeepsConsistent(metadata, config, s0, env);
      transactionId := env.transactionId;
      var request := BuildRequest(env);
      if request.Throw? {
        threw := true;
        return;
      }
      sent := sent + [request.value];
      if env.sendError.Some? {
        HandleError(env.sendError.value);
        return;
      }
      var armed := SetTimeout();
      if armed.Throw? {
        HandleError(armed.exception);
      }
    }

    /** `handleMessage(response)`. */
    method HandleMessage(response: seq<byte>, env: Env)
      requires Valid() && !closed && !threw && EnvOk(env)
      modifies this
      ensures Valid() && State() == MessageStep(metadata, config, old(State()), response, env)
    {
      MessageKeepsConsistent(metadata, config, State(), response, env);
      ClearTimeout();
      if |response| < 8 {
        threw := true;
        return;
      }
      var action := FromBE(response[..4]);
      var responseTransactionId := FromBE(response[4..8]);
      if responseTransactionId != transactionId {
        HandleError(Error(INVALID_TRANSACTION));
      } else if action == UDP_ACTION_CONNECT {
        var c := ParseConnectResponse(response);
        if c.Throw? {
          threw := true;
          return;
        }
        connection := Some(Connection(c.value.connectionId, env.now + CONNECTION_ID_LIFETIME_MS));
        SendAnnounceRequest(env);
      } else if action == UDP_ACTION_ANNOUNCE {
        var a := ParseAnnounceResponse(response);
        if a.Throw? {
          threw := true;
          return;
        }
        CloseConnection(Completion(Some(a.value), None));
      } else if action == UDP_ACTION_SCRAPE {
        HandleError(Error(SCRAPE_UNSUPPORTED));
      } else if action == UDP_ACTION_ERROR {
        HandleError(Error(ParseErrorResponse(response).value.message));
      } else {
        HandleError(Error(UNKNOWN_ACTION));
      }
    }

    /** The armed timer fires and calls `sendAnnounceRequest`. */
    method OnTimeout(env: Env)
      requires Valid() && !closed && !threw && timer.Some? && EnvOk(env)
      modifies this
      ensures Valid() && State() == TimeoutStep(metadata, config, old(State()), env)
    {
      timer := None;
      SendAnnounceRequest(env);
    }
  }
}
