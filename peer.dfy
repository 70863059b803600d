/**
 * One peer connection (`Peer`): the receive buffer cut into frames, the handshake check,
 * choke state, the queue of candidate blocks and the one-request-at-a-time selection
 * against the shared block ledger.
 *
 * The socket is modelled as the list of frames written to it and an `ended` flag; a
 * write after `end()` is not transmitted. `emit('piece')` is the synchronous
 * `addReceived` its listener performs on the ledger. An exception escaping a handler
 * ends the process; `threw` records it, and no handler runs afterwards.
 */
module Peer {
  import opened Wrappers
  import opened Bytes
  import opened TorrentParser
  import opened Pieces
  import Message
  import Handshake

  /** Everything the handlers read or change, the shared ledger's two matrices included. */
  datatype Session = Session(
    data: seq<byte>,
    handshake: bool,
    active: bool,
    choked: bool,
    queue: seq<PieceBlock>,
    written: seq<seq<byte>>,
    ended: bool,
    threw: bool,
    requested: Matrix,
    received: Matrix)

  /** The descriptor carries the 20-byte info hash and its hex form; the client id is 20 bytes. */
  predicate WellConfigured(meta: TorrentMetadata, peerId: seq<byte>)
  {
    |meta.infoHashBuffer| == 20 && meta.infoHash == Hex(meta.infoHashBuffer) && |peerId| == 20
  }

  /** `socket.write(frame)`. */
  function Send(s: Session, frame: seq<byte>): Session
  {
    if s.ended then s else s.(written := s.written + [frame])
  }

  /** `socket.end()`. */
  function End(s: Session): Session
  {
    s.(ended := true)
  }

  function Crash(s: Session): Session
  {
    s.(threw := true)
  }

  // ---------------------------------------------------------------------
  // Frames the peer writes

  function ClientHandshake(meta: TorrentMetadata, peerId: seq<byte>): Handshake.Handshake
  {
    Handshake.NewHandshake(None, Some(meta.infoHashBuffer), Some(peerId))
  }

  lemma ClientHandshakeWritable(meta: TorrentMetadata, peerId: seq<byte>)
    requires WellConfigured(meta, peerId)
    ensures IsAscii(ClientHandshake(meta, peerId).pstr)
    ensures Handshake.HandshakeBytes(ClientHandshake(meta, peerId)).Ok?
  {
    Handshake.DefaultRoundTrip(meta.infoHashBuffer, peerId);
  }

  /** The handshake `handleConnect` writes: default string, our info hash, our id. */
  function HandshakeFrame(meta: TorrentMetadata, peerId: seq<byte>): seq<byte>
    requires WellConfigured(meta, peerId)
  {
    ClientHandshakeWritable(meta, peerId);
    Handshake.HandshakeBytes(ClientHandshake(meta, peerId)).value
  }

  const INTERESTED_FRAME: seq<byte> := [0, 0, 0, 1, 2]

  lemma InterestedFrame()
    ensures Message.Frame(Message.Message(Some(Message.INTERESTED_ID), None)) == Ok(INTERESTED_FRAME)
  {
    Pow256Values();
    assert BE(1, 1) == [1];
    assert BE(0, 1) == [0];
    assert BE(0, 2) == [0, 0];
    assert BE(0, 3) == [0, 0, 0];
    assert BE(1, 2) == [0, 1];
    assert BE(1, 3) == [0, 0, 1];
    assert U32(1) == BE(1, 4) == [0, 0, 0, 1];
    var m := Message.Message(Some(Message.INTERESTED_ID), None);
    assert Message.MessageLength(m) == 1;
    assert U32(1) + [2] + [] == INTERESTED_FRAME;
    assert Message.Frame(m) == Ok(U32(1) + [2] + []);
  }

  /** The serialised `request` for a block. */
  function RequestBytes(b: PieceBlock): seq<byte>
    requires Message.FitsRequest(b)
  {
    U32(13) + [Message.REQUEST_ID as byte] + Message.RequestPayload(b)
  }

  // ---------------------------------------------------------------------
  // The handlers as functions of the session

  /** `handleConnect`: write our handshake, become active. */
  function ConnectStep(meta: TorrentMetadata, peerId: seq<byte>, s: Session): Session
    requires WellConfigured(meta, peerId)
  {
    Send(s, HandshakeFrame(meta, peerId)).(active := true)
  }

  /** The test `handleHandshake` applies to the peer's handshake. */
  predicate HandshakeAccepted(meta: TorrentMetadata, frame: seq<byte>)
  {
    var h := Handshake.Deserialize(frame);
    h.pstr == Handshake.DEFAULT_PSTR && h.infoHash.Some? && Hex(h.infoHash.value) == meta.infoHash
  }

  /** `handleHandshake`: an accepted handshake is answered with `interested`; any other ends the socket. */
  function HandshakeStep(meta: TorrentMetadata, s: Session, frame: seq<byte>): (r: Session)
    ensures r.data == s.data
  {
    if HandshakeAccepted(meta, frame) then Send(s, INTERESTED_FRAME).(handshake := true) else End(s)
  }

  /** One turn of the `sendPieceRequest` loop: the queue moves on, or the loop stops. */
  datatype Turn = Skipped(next: Session) | Stopped(last: Session)

  /**
   * Shift the queue's front block and ask the ledger whether it is needed (which may first
   * reset `requested`). A block not needed is skipped; for a needed one a request is
   * written and the block marked requested; a throw stops everything.
   */
  function ShiftOne(s: Session): Turn
    requires s.queue != []
  {
    var b := s.queue[0];
    var s1 := s.(queue := s.queue[1..], requested := NeededState(s.requested, s.received));
    var needed := Lookup(s1.requested, b.index, b.begin);
    if needed.Throw? then Stopped(Crash(s1))
    else if !needed.value then Skipped(s1)
    else if !Message.FitsRequest(b) then Stopped(Crash(s1))
    else Stopped(Send(s1, RequestBytes(b)).(requested := Write(s1.requested, b.index, b.begin).value))
  }

  /**
   * One turn drops the front block, keeps the buffer and the received ledger, and writes at
   * most one frame: the request for that block, which is then marked requested.
   */
  lemma ShiftOneFacts(s: Session)
    requires s.queue != []
    ensures var t := ShiftOne(s); var r := if t.Skipped? then t.next else t.last;
      && r.queue == s.queue[1..] && r.data == s.data && r.received == s.received && r.choked == s.choked
      && (t.Skipped? ==> t.next.written == s.written)
      && (t.Stopped? ==> |s.written| <= |t.last.written| <= |s.written| + 1 && t.last.written[..|s.written|] == s.written)
      && (t.Stopped? && |t.last.written| == |s.written| + 1 ==>
      var b := s.queue[0];
      && Message.FitsRequest(b)
      && t.last.written[|s.written|] == RequestBytes(b)
      && (HasSlot(t.last.requested, b.index, b.begin) ==> t.last.requested[b.index][b.begin / BLOCK_LENGTH]))
  {
    var b := s.queue[0];
    var s1 := s.(queue := s.queue[1..], requested := NeededState(s.requested, s.received));
    var needed := Lookup(s1.requested, b.index, b.begin);
    if needed.Ok? && needed.value && Message.FitsRequest(b) {
      RequestSent(s1, b);
    }
  }

  /** The loop of `sendPieceRequest`: turns until one stops or the queue is empty. */
  function ShiftUntilNeeded(s: Session): (r: Session)
    ensures r.data == s.data && r.received == s.received && r.choked == s.choked
    decreases |s.queue|
  {
    if s.queue == [] then s
    else
      ShiftOneFacts(s);
      match ShiftOne(s)
      case Skipped(next) => ShiftUntilNeeded(next)
      case Stopped(last) => last
  }

  /** `sendPieceRequest`. */
  function SendPieceRequestStep(s: Session): (r: Session)
    ensures r.data == s.data && r.received == s.received
  {
    if s.choked then s else ShiftUntilNeeded(s)
  }

  /** `onChokeMessage`. */
  function ChokeStep(s: Session): Session
  {
    End(s.(choked := true))
  }

  /** `onUnchokeMessage`. */
  function UnchokeStep(s: Session): (r: Session)
    ensures r.data == s.data
  {
    SendPieceRequestStep(s.(choked := false))
  }

  /** `onHaveMessage`: queue the piece's blocks; try a request when the queue holds exactly one. */
  function HaveStep(meta: TorrentMetadata, s: Session, m: Message.Message): (r: Session)
    ensures r.data == s.data
  {
    var parsed := Message.ParseHave(m);
    if parsed.Throw? then Crash(s)
    else
      var index := if parsed.value.Some? then parsed.value.value else NULL_INDEX;
      var s1 := s.(queue := s.queue + GetPieceBlocks(meta, index));
      if |s1.queue| == 1 then SendPieceRequestStep(s1) else s1
  }

  /** The blocks of the listed pieces, piece after piece. */
  function BlocksOf(meta: TorrentMetadata, indices: seq<nat>): seq<PieceBlock>
  {
    if indices == [] then []
    else BlocksOf(meta, indices[..|indices| - 1]) + GetPieceBlocks(meta, indices[|indices| - 1])
  }

  lemma BlocksOfStep(meta: TorrentMetadata, queue: seq<PieceBlock>, indices: seq<nat>, i: nat)
    requires i < |indices|
    ensures queue + BlocksOf(meta, indices[..i + 1]) == (queue + BlocksOf(meta, indices[..i])) + GetPieceBlocks(meta, indices[i])
  {
    assert indices[..i + 1][..i] == indices[..i];
  }

  /**
   * `onBitfieldMessage`: queue the blocks of every advertised piece; try a request when the
   * queue length equals the number of advertised pieces. A null bitfield throws.
   */
  function BitfieldStep(meta: TorrentMetadata, s: Session, m: Message.Message): (r: Session)
    ensures r.data == s.data
  {
    if m.id != Some(Message.BITFIELD_ID) || m.payload.None? then Crash(s)
    else
      var indices := Message.BitfieldIndices(m.payload.value);
      var s1 := s.(queue := s.queue + BlocksOf(meta, indices));
      if |s1.queue| == |indices| then SendPieceRequestStep(s1) else s1
  }

  /**
   * `onPieceMessage`: the block is handed to the ledger first (a response of nulls makes
   * `addReceived` throw), then a request is tried unless the ledger is done.
   */
  function PieceStep(s: Session, m: Message.Message): (r: Session)
    ensures r.data == s.data
  {
    var parsed := Message.ParsePiece(m);
    if parsed.Throw? then Crash(s)
    else
      var index := if parsed.value.Some? then parsed.value.value.index else NULL_INDEX;
      var begin := if parsed.value.Some? then parsed.value.value.begin else 0;
      var marked := Write(s.received, index, begin);
      if marked.Throw? then Crash(s)
      else
        var s1 := s.(received := marked.value);
        if !Every(s1.received) then SendPieceRequestStep(s1) else s1
  }

  /** `handleMessage`: dispatch on the id; every other id, and a keep-alive, is ignored. */
  function MessageStep(meta: TorrentMetadata, s: Session, frame: seq<byte>): (r: Session)
    ensures r.data == s.data
  {
    var m := Message.Deserialize(frame);
    if m.id == Some(Message.CHOKE_ID) then ChokeStep(s)
    else if m.id == Some(Message.UNCHOKE_ID) then UnchokeStep(s)
    else if m.id == Some(Message.HAVE_ID) then HaveStep(meta, s, m)
    else if m.id == Some(Message.BITFIELD_ID) then BitfieldStep(meta, s, m)
    else if m.id == Some(Message.PIECE_ID) then PieceStep(s, m)
    else s
  }

  /** `messageLength()`: the length byte plus 49 before the handshake, the length prefix plus 4 after. */
  function FrameLength(handshake: bool, data: seq<byte>): (n: nat)
    requires |data| >= 4
    ensures n >= 4
  {
    if handshake then FromBE(data[..4]) + 4 else data[0] as nat + 49
  }

  predicate HasFrame(s: Session)
  {
    |s.data| >= 4 && |s.data| >= FrameLength(s.handshake, s.data)
  }

  /** The `if` in the framing loop: the first frame is a handshake, every later one a message. */
  function FrameStep(meta: TorrentMetadata, s: Session, frame: seq<byte>): (r: Session)
    ensures r.data == s.data
  {
    if !s.handshake then HandshakeStep(meta, s, frame) else MessageStep(meta, s, frame)
  }

  /** The framing loop of `handleData`: cut and handle whole frames until none is left or a handler throws. */
  function Drain(meta: TorrentMetadata, s: Session): (r: Session)
    decreases |s.data|
  {
    if !HasFrame(s) then s
    else
      var len := FrameLength(s.handshake, s.data);
      var next := FrameStep(meta, s.(data := s.data[len..]), s.data[..len]);
      if next.threw then next else Drain(meta, next)
  }

  /** `handleData`. */
  function DataStep(meta: TorrentMetadata, s: Session, chunk: seq<byte>): Session
  {
    Drain(meta, s.(data := s.data + chunk))
  }

  /** One turn of the framing loop. */
  lemma DrainStep(meta: TorrentMetadata, s: Session)
    requires HasFrame(s)
    ensures var len := FrameLength(s.handshake, s.data);
      var next := FrameStep(meta, s.(data := s.data[len..]), s.data[..len]);
      Drain(meta, s) == if next.threw then next else Drain(meta, next)
  {
  }

  // ---------------------------------------------------------------------
  // Properties of the handlers

  /**
   * The framing loop consumes a prefix of the buffer, frame by frame, and stops (short of a
   * crash) only when fewer than 4 bytes or less than the next frame remain.
   */
  lemma {:induction false} DrainConsumesPrefix(meta: TorrentMetadata, s: Session)
    ensures |Drain(meta, s).data| <= |s.data|
    ensures Drain(meta, s).data == s.data[|s.data| - |Drain(meta, s).data|..]
    ensures !Drain(meta, s).threw ==> !HasFrame(Drain(meta, s))
    decreases |s.data|
  {
    if HasFrame(s) {
      var len := FrameLength(s.handshake, s.data);
      var next := FrameStep(meta, s.(data := s.data[len..]), s.data[..len]);
      if !next.threw {
        DrainConsumesPrefix(meta, next);
        var r := Drain(meta, next);
        assert s.data[|s.data| - |r.data|..] == next.data[|next.data| - |r.data|..];
      }
    }
  }

  /**
   * The peer accepts a handshake exactly when it carries the default protocol string and
   * our info hash; accepting sets `handshake` and writes one `interested`, refusing ends
   * the socket.
   */
  lemma HandshakeStepIff(meta: TorrentMetadata, peerId: seq<byte>, s: Session, frame: seq<byte>)
    requires WellConfigured(meta, peerId)
    ensures HandshakeAccepted(meta, frame) <==>
      Handshake.Deserialize(frame).pstr == Handshake.DEFAULT_PSTR
      && Handshake.Deserialize(frame).infoHash == Some(meta.infoHashBuffer)
    ensures HandshakeAccepted(meta, frame) ==>
      HandshakeStep(meta, s, frame) == Send(s, INTERESTED_FRAME).(handshake := true)
    ensures !HandshakeAccepted(meta, frame) ==>
      HandshakeStep(meta, s, frame) == s.(ended := true)
  {
    var h := Handshake.Deserialize(frame);
    if HandshakeAccepted(meta, frame) {
      HexInjective(h.infoHash.value, meta.infoHashBuffer);
    }
  }

  /**
   * Two clients of this kind accept each other: the handshake one writes is exactly one
   * frame (68 bytes, length byte 19) for the other, which accepts it when the info hashes agree.
   */
  lemma HandshakesAgree(meta: TorrentMetadata, peerId: seq<byte>, remoteId: seq<byte>)
    requires WellConfigured(meta, peerId) && WellConfigured(meta, remoteId)
    ensures |HandshakeFrame(meta, remoteId)| == 68
    ensures FrameLength(false, HandshakeFrame(meta, remoteId)) == 68
    ensures HandshakeAccepted(meta, HandshakeFrame(meta, remoteId))
  {
    var h := ClientHandshake(meta, remoteId);
    Handshake.DefaultRoundTrip(meta.infoHashBuffer, remoteId);
  }

  /**
   * `sendPieceRequest` drops a prefix of the queue and writes at most one frame; `received`
   * is untouched.
   */
  lemma {:induction false} ShiftUntilNeededSendsOne(s: Session)
    ensures var r := ShiftUntilNeeded(s);
      && |r.queue| <= |s.queue| && r.queue == s.queue[|s.queue| - |r.queue|..]
      && |s.written| <= |r.written| <= |s.written| + 1 && r.written[..|s.written|] == s.written
    decreases |s.queue|
  {
    if s.queue != [] {
      ShiftOneFacts(s);
    }
    if s.queue != [] && ShiftOne(s).Skipped? {
      var next := ShiftOne(s).next;
      ShiftUntilNeededSendsOne(next);
      var r := ShiftUntilNeeded(next);
      assert s.queue[|s.queue| - |r.queue|..] == next.queue[|next.queue| - |r.queue|..];
    }
  }

  /**
   * The one frame `sendPieceRequest` writes is the request for the last block it shifted
   * off, and that block is then marked requested.
   */
  lemma {:induction false} ShiftUntilNeededRequests(s: Session)
    ensures var r := ShiftUntilNeeded(s);
      |r.written| == |s.written| + 1 ==>
        && |r.queue| < |s.queue|
        && var b := s.queue[|s.queue| - |r.queue| - 1];
        && Message.FitsRequest(b)
        && r.written[|s.written|] == RequestBytes(b)
        && (HasSlot(r.requested, b.index, b.begin) ==> r.requested[b.index][b.begin / BLOCK_LENGTH])
  {
    ShiftUntilNeededSearches(s);
    if s.queue != [] {
      var l := NeededState(s.requested, s.received);
      StopAtWrites(s, l, FirstStop(l, s.queue));
    }
  }

  /**
   * How many blocks at the head of `queue` the ledger `l` answers "not needed" for: the
   * index of the first block whose `needed` check answers anything but `Ok(false)`, or
   * `|queue|` when there is none.
   */
  function FirstStop(l: Matrix, queue: seq<PieceBlock>): (k: nat)
    ensures k <= |queue|
    ensures forall j :: 0 <= j < k ==> Lookup(l, queue[j].index, queue[j].begin) == Ok(false)
    ensures k < |queue| ==> Lookup(l, queue[k].index, queue[k].begin) != Ok(false)
  {
    if queue == [] then 0
    else if Lookup(l, queue[0].index, queue[0].begin) == Ok(false) then 1 + FirstStop(l, queue[1..])
    else 0
  }

  /**
   * `sendPieceRequest` read as a search rather than a loop: reset the ledger once, find the
   * first queued block it still needs, drop every block up to and including that one, then
   * request it (or throw, when the lookup or the request frame fails). With no such block
   * the queue is emptied and nothing is written.
   */
  function FirstNeededRequest(s: Session): Session
  {
    if s.queue == [] then s
    else
      var l := NeededState(s.requested, s.received);
      StopAt(s, l, FirstStop(l, s.queue))
  }

  /**
   * The search's last step, against the ledger `l`: drop the first `k + 1` blocks and
   * request block `k`, or empty the queue when `k` is past its end.
   */
  function StopAt(s: Session, l: Matrix, k: nat): Session
    requires k <= |s.queue|
  {
    if k == |s.queue| then s.(queue := [], requested := l)
    else
      var b := s.queue[k];
      var s1 := s.(queue := s.queue[k + 1..], requested := l);
      if Lookup(l, b.index, b.begin).Throw? || !Message.FitsRequest(b) then Crash(s1)
      else Send(s1, RequestBytes(b)).(requested := Write(l, b.index, b.begin).value)
  }

  /**
   * The loop of `sendPieceRequest` is that search. The ledger is reset at most once: after
   * one `needed` call, a second one gives the same ledger back, so every turn asks the
   * same question of the same ledger.
   */
  lemma {:induction false} ShiftUntilNeededSearches(s: Session)
    ensures ShiftUntilNeeded(s) == FirstNeededRequest(s)
    decreases |s.queue|
  {
    if s.queue != [] {
      var l := NeededState(s.requested, s.received);
      var b := s.queue[0];
      if Lookup(l, b.index, b.begin) == Ok(false) {
        var next := s.(queue := s.queue[1..], requested := l);
        assert ShiftOne(s) == Skipped(next);
        ShiftUntilNeededSearches(next);
        SearchSkipsUnneeded(s);
      } else {
        assert FirstStop(l, s.queue) == 0;
        assert s.queue[0 + 1..] == s.queue[1..];
      }
    }
  }

  /** Dropping a block the ledger does not need leaves the search's outcome as it was. */
  lemma SearchSkipsUnneeded(s: Session)
    requires s.queue != []
    requires Lookup(NeededState(s.requested, s.received), s.queue[0].index, s.queue[0].begin) == Ok(false)
    ensures var l := NeededState(s.requested, s.received);
      FirstNeededRequest(s) == FirstNeededRequest(s.(queue := s.queue[1..], requested := l))
  {
    var l := NeededState(s.requested, s.received);
    var next := s.(queue := s.queue[1..], requested := l);
    var k := FirstStop(l, next.queue);
    assert FirstStop(l, s.queue) == k + 1;
    StopAtShifts(s, l, k);
    if next.queue != [] {
      assert NeededState(l, s.received) == l;
    }
  }

  /** Stopping at `k + 1` is stopping at `k` once the front block is gone. */
  lemma StopAtShifts(s: Session, l: Matrix, k: nat)
    requires k < |s.queue|
    ensures StopAt(s, l, k + 1) == StopAt(s.(queue := s.queue[1..], requested := l), l, k)
  {
    if k + 1 < |s.queue| {
      assert s.queue[1..][k + 1..] == s.queue[k + 2..];
      assert s.queue[1..][k] == s.queue[k + 1];
    }
  }

  /**
   * What `sendPieceRequest` asks of the ledger, turn by turn. Every block it shifts off
   * before the last was answered "not needed"; a frame is written only for a block answered
   * "needed", and it is the first such block in the queue; and when it neither throws nor
   * writes, on a socket still open, it has used up the whole queue.
   */
  lemma ShiftUntilNeededAsks(s: Session)
    ensures var r := ShiftUntilNeeded(s);
      var l := NeededState(s.requested, s.received);
      && (forall j :: 0 <= j < |s.queue| - |r.queue| - 1 ==>
            Lookup(l, s.queue[j].index, s.queue[j].begin) == Ok(false))
      && (|r.written| == |s.written| + 1 ==>
            var k := |s.queue| - |r.queue| - 1;
            0 <= k && Lookup(l, s.queue[k].index, s.queue[k].begin) == Ok(true))
      && (!r.threw && !s.ended && |r.written| == |s.written| ==> r.queue == [])
  {
    ShiftUntilNeededSearches(s);
    if s.queue != [] {
      var l := NeededState(s.requested, s.received);
      StopAtWrites(s, l, FirstStop(l, s.queue));
    }
  }

  /**
   * What the search's last step does: past the end it empties the queue and writes nothing;
   * otherwise it drops `k + 1` blocks, and it writes a frame, the request for block `k`,
   * exactly when it does not throw and the socket is open.
   */
  lemma StopAtWrites(s: Session, l: Matrix, k: nat)
    requires k <= |s.queue|
    requires k < |s.queue| ==> Lookup(l, s.queue[k].index, s.queue[k].begin) != Ok(false)
    ensures var r := StopAt(s, l, k);
      && (k == |s.queue| ==> r.queue == [] && r.written == s.written)
      && (k < |s.queue| ==> |r.queue| == |s.queue| - k - 1)
      && (k < |s.queue| && !r.threw && !s.ended ==> |r.written| == |s.written| + 1)
      && (|r.written| == |s.written| + 1 ==>
            && k < |s.queue|
            && var b := s.queue[k];
            && Lookup(l, b.index, b.begin) == Ok(true)
            && Message.FitsRequest(b)
            && r.written[|s.written|] == RequestBytes(b)
            && (HasSlot(r.requested, b.index, b.begin) ==> r.requested[b.index][b.begin / BLOCK_LENGTH]))
  {
    if k < |s.queue| {
      var b := s.queue[k];
      if !Lookup(l, b.index, b.begin).Throw? && Message.FitsRequest(b) {
        RequestSent(s.(queue := s.queue[k + 1..], requested := l), b);
      }
    }
  }


  /** The last step of the loop: the request is written and the block marked requested. */
  lemma RequestSent(s1: Session, b: PieceBlock)
    requires Message.FitsRequest(b) && 0 <= b.index < |s1.requested|
    ensures var r := Send(s1, RequestBytes(b)).(requested := Write(s1.requested, b.index, b.begin).value);
      && r.queue == s1.queue
      && (|r.written| == |s1.written| + 1 ==> r.written[|s1.written|] == RequestBytes(b))
      && (HasSlot(r.requested, b.index, b.begin) ==> r.requested[b.index][b.begin / BLOCK_LENGTH])
  {
    var w := Write(s1.requested, b.index, b.begin).value;
    assert SameShape(s1.requested, w);
    if HasSlot(w, b.index, b.begin) {
      assert HasSlot(s1.requested, b.index, b.begin);
    }
  }

  /** Choked, `sendPieceRequest` does nothing. */
  lemma ChokedSendsNothing(s: Session)
    requires s.choked
    ensures SendPieceRequestStep(s) == s
  {
  }

  /** `choke` sets the flag and ends the socket; `unchoke` clears it and sends at most one request. */
  lemma ChokeAndUnchoke(s: Session)
    ensures ChokeStep(s).choked && ChokeStep(s).ended && ChokeStep(s).written == s.written
    ensures !UnchokeStep(s).choked
    ensures |UnchokeStep(s).written| <= |s.written| + 1
  {
    ShiftUntilNeededSendsOne(s.(choked := false));
  }

  /** A `have` that does not leave exactly one block queued only extends the queue. */
  lemma HaveQueuesBlocks(meta: TorrentMetadata, s: Session, index: nat)
    requires index < 0x1_0000_0000
    requires |s.queue| + |GetPieceBlocks(meta, index)| != 1
    ensures HaveStep(meta, s, Message.Message(Some(Message.HAVE_ID), Some(U32(index))))
         == s.(queue := s.queue + GetPieceBlocks(meta, index))
  {
    var m := Message.Message(Some(Message.HAVE_ID), Some(U32(index)));
    FromBEofBE(index, 4);
    Pow256Values();
    assert Message.ParseHave(m) == Ok(Some(index));
  }

  /**
   * A `have` whose payload is not 4 bytes queues the blocks of the null index; with pieces
   * of one block that block is requested at once, and the ledger lookup throws.
   */
  lemma HaveWithBadPayloadCrashes(meta: TorrentMetadata, s: Session, payload: seq<byte>)
    requires |payload| != 4 && s.queue == [] && !s.choked
    requires 0 < meta.infoPieceLength <= BLOCK_LENGTH
    ensures HaveStep(meta, s, Message.Message(Some(Message.HAVE_ID), Some(payload))).threw
  {
    var blocks := GetPieceBlocks(meta, NULL_INDEX);
    assert GetPieceLength(meta, NULL_INDEX) == meta.infoPieceLength;
    assert |blocks| == 1 && blocks[0].index == NULL_INDEX;
  }

  /**
   * A piece is marked received before the done check, and once that makes the ledger
   * done nothing more is requested.
   */
  lemma PieceMarksThenStops(s: Session, index: nat, begin: nat, block: seq<byte>)
    requires index < 0x1_0000_0000 && begin < 0x1_0000_0000
    requires 0 <= index < |s.received|
    ensures var r := PieceStep(s, Message.Message(Some(Message.PIECE_ID), Some(U32(index) + U32(begin) + block)));
      && r.received == Write(s.received, index, begin).value
      && (AllTrue(r.received) ==> r == s.(received := r.received))
      && |r.written| <= |s.written| + 1
  {
    var p := U32(index) + U32(begin) + block;
    assert p[..4] == U32(index) && p[4..8] == U32(begin) && p[8..] == block;
    FromBEofBE(index, 4);
    FromBEofBE(begin, 4);
    Pow256Values();
    var s1 := s.(received := Write(s.received, index, begin).value);
    ShiftUntilNeededSendsOne(s1);
  }

  /** `interested`, `not interested`, `request`, `cancel` and keep-alive frames change nothing. */
  lemma IgnoredMessages(meta: TorrentMetadata, s: Session, frame: seq<byte>)
    requires |frame| <= 4 || frame[4] in {Message.INTERESTED_ID, Message.NOT_INTERESTED_ID, Message.REQUEST_ID, Message.CANCEL_ID}
    ensures MessageStep(meta, s, frame) == s
  {
  }

  // ---------------------------------------------------------------------
  // The peer object

  class Peer {
    var data: seq<byte>
    var handshake: bool
    var active: bool
    var choked: bool
    var bitfield: seq<PieceBlock>
    var written: seq<seq<byte>>
    var ended: bool
    var threw: bool
    const metadata: TorrentMetadata
    const peerId: seq<byte>
    const pieceManager: PieceManager

    function State(): Session
      reads this, pieceManager
    {
      Session(data, handshake, active, choked, bitfield, written, ended, threw,
              pieceManager.requested, pieceManager.received)
    }

    ghost predicate Valid()
      reads this, pieceManager
    {
      WellConfigured(metadata, peerId) && pieceManager.Valid()
    }

    /** `new Peer(ip, port, config, metadata, pieceManager)`: empty buffer, no handshake, inactive, choked, empty queue. */
    constructor (metadata: TorrentMetadata, peerId: seq<byte>, pieceManager: PieceManager)
      requires WellConfigured(metadata, peerId) && pieceManager.Valid()
      ensures Valid()
      ensures this.metadata == metadata && this.peerId == peerId && this.pieceManager == pieceManager
      ensures State() == Session([], false, false, true, [], [], false, false,
                                 pieceManager.requested, pieceManager.received)
    {
      this.metadata := metadata;
      this.peerId := peerId;
      this.pieceManager := pieceManager;
      data := [];
      handshake := false;
      active := false;
      choked := true;
      bitfield := [];
      written := [];
      ended := false;
      threw := false;
    }

    method SocketWrite(frame: seq<byte>)
      modifies this
      ensures State() == Send(old(State()), frame)
    {
      if !ended {
        written := written + [frame];
      }
    }

    /** `handleConnect`. */
    method HandleConnect()
      requires Valid() && !threw
      modifies this
      ensures Valid() && State() == ConnectStep(metadata, peerId, old(State()))
    {
      ClientHandshakeWritable(metadata, peerId);
      var bytes := Handshake.Serialize(ClientHandshake(metadata, peerId));
      SocketWrite(bytes.value);
      active := true;
    }

    /** `handleEnd`. */
    method HandleEnd()
      modifies this
      ensures State() == old(State()).(active := false)
    {
      active := false;
    }

    /** `handleError` and `handleTimeout`: log, then end the socket. */
    method HandleError()
      modifies this
      ensures State() == End(old(State()))
    {
      ended := true;
    }

    /** `handleData`: append the chunk, then cut and handle whole frames. */
    method HandleData(chunk: seq<byte>)
      requires Valid() && !threw
      modifies this, pieceManager
      ensures Valid()
      ensures State() == DataStep(metadata, old(State()), chunk)
    {
      ghost var target := DataStep(metadata, State(), chunk);
      data := data + chunk;
      while |data| >= 4 && |data| >= FrameLength(handshake, data)
        invariant Valid() && !threw
        invariant Drain(metadata, State()) == target
        decreases |data|
      {
        CutFrame();
        if threw {
          return;
        }
      }
      assert !HasFrame(State());
    }

    /** One turn of the loop of `handleData`: cut the first frame off the buffer and handle it. */
    method CutFrame()
      requires Valid() && !threw && HasFrame(State())
      modifies this, pieceManager
      ensures Valid() && |data| < old(|data|)
      ensures threw ==> State() == Drain(metadata, old(State()))
      ensures !threw ==> Drain(metadata, State()) == Drain(metadata, old(State()))
    {
      ghost var s := State();
      var len := FrameLength(handshake, data);
      var message := data[..len];
      data := data[len..];
      HandleFrame(message);
      ghost var next := State();
      DrainStep(metadata, s);
      assert Drain(metadata, s) == if next.threw then next else Drain(metadata, next);
    }

    /** The `if` in the loop of `handleData`. */
    method HandleFrame(message: seq<byte>)
      requires Valid() && !threw
      modifies this, pieceManager
      ensures Valid() && State() == FrameStep(metadata, old(State()), message)
    {
      if !handshake {
        HandleHandshake(message);
      } else {
        HandleMessage(message);
      }
    }

    /** `handleHandshake`. */
    method HandleHandshake(message: seq<byte>)
      requires Valid() && !threw
      modifies this
      ensures Valid() && State() == HandshakeStep(metadata, old(State()), message)
    {
      var h := Handshake.Deserialize(message);
      if h.pstr == Handshake.DEFAULT_PSTR && h.infoHash.Some? && Hex(h.infoHash.value) == metadata.infoHash {
        InterestedFrame();
        var bytes := Message.Serialize(Message.Message(Some(Message.INTERESTED_ID), None));
        SocketWrite(bytes.value);
        handshake := true;
      } else {
        HandleError();
      }
    }

    /** `handleMessage`. */
    method HandleMessage(message: seq<byte>)
      requires Valid() && !threw
      modifies this, pieceManager
      ensures Valid() && State() == MessageStep(metadata, old(State()), message)
    {
      var m := Message.Deserialize(message);
      if m.id == Some(Message.CHOKE_ID) {
        OnChoke();
      } else if m.id == Some(Message.UNCHOKE_ID) {
        OnUnchoke();
      } else if m.id == Some(Message.HAVE_ID) {
        OnHave(m);
      } else if m.id == Some(Message.BITFIELD_ID) {
        OnBitfield(m);
      } else if m.id == Some(Message.PIECE_ID) {
        OnPiece(m);
      }
    }

    /** `onChokeMessage`. */
    method OnChoke()
      modifies this
      ensures State() == ChokeStep(old(State()))
    {
      choked := true;
      ended := true;
    }

    /** `onUnchokeMessage`. */
    method OnUnchoke()
      requires Valid() && !threw
      modifies this, pieceManager
      ensures Valid() && State() == UnchokeStep(old(State()))
    {
      choked := false;
      SendPieceRequest();
    }

    /** `onHaveMessage`. */
    method OnHave(m: Message.Message)
      requires Valid() && !threw
      modifies this, pieceManager
      ensures Valid() && State() == HaveStep(metadata, old(State()), m)
    {
      var parsed := Message.ParseHave(m);
      if parsed.Throw? {
        threw := true;
        return;
      }
      var index := if parsed.value.Some? then parsed.value.value else NULL_INDEX;
      bitfield := bitfield + GetPieceBlocks(metadata, index);
      if |bitfield| == 1 {
        SendPieceRequest();
      }
    }

    /** `onBitfieldMessage`. */
    method OnBitfield(m: Message.Message)
      requires Valid() && !threw
      modifies this, pieceManager
      ensures Valid() && State() == BitfieldStep(metadata, old(State()), m)
    {
      var parsed := Message.ParseBitfield(m);
      if parsed.Throw? || parsed.value.None? {
        threw := true;
        return;
      }
      var indices := parsed.value.value;
      ghost var s0 := State();
      var i := 0;
      while i < |indices|
        invariant 0 <= i <= |indices|
        invariant bitfield == s0.queue + BlocksOf(metadata, indices[..i])
        modifies this`bitfield
      {
        BlocksOfStep(metadata, s0.queue, indices, i);
        bitfield := bitfield + GetPieceBlocks(metadata, indices[i]);
        i := i + 1;
      }
      assert indices[..i] == indices;
      assert State() == s0.(queue := bitfield);
      if |bitfield| == |indices| {
        SendPieceRequest();
      }
    }

    /** `onPieceMessage`, with the listener's `addReceived` run at the `emit`. */
    method OnPiece(m: Message.Message)
      requires Valid() && !threw
      modifies this, pieceManager
      ensures Valid() && State() == PieceStep(old(State()), m)
    {
      var parsed := Message.ParsePiece(m);
      if parsed.Throw? {
        threw := true;
        return;
      }
      var index, begin := NULL_INDEX, 0;
      if parsed.value.Some? {
        index, begin := parsed.value.value.index, parsed.value.value.begin;
      }
      var ok := pieceManager.AddReceived(index, begin);
      if !ok {
        threw := true;
        return;
      }
      if !pieceManager.IsDone() {
        SendPieceRequest();
      }
    }

    /** `sendPieceRequest`. */
    method SendPieceRequest()
      requires Valid() && !threw
      modifies this, pieceManager
      ensures Valid() && State() == SendPieceRequestStep(old(State()))
    {
      if choked {
        return;
      }
      while |bitfield| > 0
        invariant Valid() && !threw && !choked
        invariant ShiftUntilNeeded(State()) == ShiftUntilNeeded(old(State()))
        decreases |bitfield|
      {
        var stopped := ShiftBlock();
        if stopped {
          return;
        }
      }
    }

    /** One turn of the loop of `sendPieceRequest`: shift the front block and request it if it is needed. */
    method ShiftBlock() returns (stopped: bool)
      requires Valid() && !threw && bitfield != []
      modifies this, pieceManager
      ensures Valid() && !choked == !old(choked) && |bitfield| < old(|bitfield|)
      ensures stopped == ShiftOne(old(State())).Stopped?
      ensures stopped ==> State() == ShiftOne(old(State())).last
      ensures !stopped ==> State() == ShiftOne(old(State())).next && !threw
    {
      ghost var s0 := State();
      var b := bitfield[0];
      bitfield := bitfield[1..];
      var needed := pieceManager.Needed(b);
      ghost var s1 := State();
      assert s1 == s0.(queue := s0.queue[1..], requested := NeededState(s0.requested, s0.received));
      if needed.Throw? {
        threw := true;
        assert ShiftOne(s0) == Stopped(Crash(s1));
        return true;
      }
      if !needed.value {
        assert ShiftOne(s0) == Skipped(s1);
        return false;
      }
      RequestBlock(b);
      assert ShiftOne(s0) == Stopped(State());
      return true;
    }

    /** The needed branch of `sendPieceRequest`: build and write the request, then mark the block requested. */
    method RequestBlock(b: PieceBlock)
      requires Valid() && !threw && 0 <= b.index < |pieceManager.requested|
      modifies this, pieceManager
      ensures Valid()
      ensures !Message.FitsRequest(b) ==> State() == Crash(old(State()))
      ensures Message.FitsRequest(b) ==>
        State() == Send(old(State()), RequestBytes(b)).(requested := Write(old(State()).requested, b.index, b.begin).value)
    {
      var request := Message.BuildRequest(b);
      if request.Throw? {
        threw := true;
        return;
      }
      Message.RequestFrame(b);
      var frame := Message.Serialize(request.value);
      SocketWrite(frame.value);
      var ok := pieceManager.AddRequested(b);
    }
  }
}
