/**
 * The peer-wire message frame (section "peer messages" of BEP 3): a 4-byte big-endian
 * length prefix, an optional id byte and a payload, as `Message` reads and writes it.
 */
module Message {
  import opened Wrappers
  import opened Bytes
  import opened TorrentParser
  import Utils

  const CHOKE_ID := 0
  const UNCHOKE_ID := 1
  const INTERESTED_ID := 2
  const NOT_INTERESTED_ID := 3
  const HAVE_ID := 4
  const BITFIELD_ID := 5
  const REQUEST_ID := 6
  const PIECE_ID := 7
  const CANCEL_ID := 8

  /** `new Message(id = null, payload = null)`. */
  datatype Message = Message(id: Option<int>, payload: Option<seq<byte>>)

  /** `!!this.id`: null and 0 are falsy. */
  predicate Truthy(id: Option<int>)
  {
    id.Some? && id.value != 0
  }

  /** `(this.payload?.length || 0) + !!this.id`. */
  function MessageLength(m: Message): nat
  {
    (if m.payload.Some? then |m.payload.value| else 0) + (if Truthy(m.id) then 1 else 0)
  }

  /**
   * The bytes `serialize` returns, or the RangeError it throws: the length does not fit
   * `writeUInt32BE`, the id does not fit `writeUInt8`, or a payload is `set` at offset 5 of
   * a buffer with no id byte (one byte too short for it).
   */
  function Frame(m: Message): Result<seq<byte>>
  {
    if MessageLength(m) >= 0x1_0000_0000 then Throw(RangeError)
    else if Truthy(m.id) && !(0 <= m.id.value < 256) then Throw(RangeError)
    else if !Truthy(m.id) && m.payload.Some? then Throw(RangeError)
    else
      Pow256Values();
      Ok(U32(MessageLength(m))
         + (if Truthy(m.id) then [m.id.value as byte] else [])
         + (if m.payload.Some? then m.payload.value else []))
  }

  /** `serialize`: allocate, write the length, then the id byte, then the payload. */
  method Serialize(m: Message) returns (r: Result<seq<byte>>)
    ensures r == Frame(m)
  {
    var len := MessageLength(m);
    if len >= 0x1_0000_0000 {
      return Throw(RangeError);
    }
    Pow256Values();
    var buf := new byte[4 + len](_ => 0);
    SetBytes(buf, U32(len), 0);
    var idBytes: seq<byte> := [];
    if Truthy(m.id) {
      if !(0 <= m.id.value < 256) {
        return Throw(RangeError);
      }
      buf[4] := m.id.value;
      idBytes := [m.id.value];
    }
    assert buf[..] == (U32(len) + idBytes) + Zeros(len - |idBytes|);
    if m.payload.Some? {
      if 5 + |m.payload.value| > buf.Length {
        return Throw(RangeError);
      }
      SpliceAppend(U32(len) + idBytes, m.payload.value, buf.Length);
      SetBytes(buf, m.payload.value, 5);
      assert buf[..] == U32(len) + idBytes + m.payload.value + Zeros(0);
    } else {
      assert buf[..] == U32(len) + idBytes + Zeros(0);
    }
    assert idBytes == if Truthy(m.id) then [m.id.value as byte] else [];
    assert buf[..] == U32(len) + idBytes + (if m.payload.Some? then m.payload.value else []);
    return Ok(buf[..]);
  }

  /** `Message.deserialize`: byte 4 read as a signed id, bytes from 5 on as the payload; the length prefix is not read. */
  function Deserialize(data: seq<byte>): Message
  {
    Message(if |data| > 4 then Some(Int8(data[4])) else None,
            if |data| > 5 then Some(data[5..]) else None)
  }

  /** What comes back from a serialised message: a falsy id and an empty payload are lost, a large id turns negative. */
  function Reread(m: Message): Message
  {
    Message(if Truthy(m.id) then Some(Int8(m.id.value % 256)) else None,
            if Truthy(m.id) && m.payload.Some? && m.payload.value != [] then m.payload else None)
  }

  /** Deserialising what `serialize` wrote. */
  lemma DeserializeFrame(m: Message)
    requires Frame(m).Ok?
    ensures Truthy(m.id) ==> 0 <= m.id.value < 256
    ensures Deserialize(Frame(m).value) == Reread(m)
  {
    Pow256Values();
    var f := Frame(m).value;
    if Truthy(m.id) {
      var p := if m.payload.Some? then m.payload.value else [];
      assert f == U32(MessageLength(m)) + [m.id.value as byte] + p;
      assert f[4] == m.id.value;
      assert f[5..] == p;
    }
  }

  /** For ids 1..127 and a non-empty payload the round trip is exact. */
  lemma RoundTrip(m: Message)
    requires m.id.Some? && 1 <= m.id.value < 128
    requires m.payload.Some? && 0 < |m.payload.value| < 0x1_0000_0000 - 1
    ensures Frame(m).Ok? && Deserialize(Frame(m).value) == m
  {
    DeserializeFrame(m);
  }

  /** A keep-alive and a choke (id 0 is falsy) both serialise to four zero bytes and read back as a keep-alive. */
  lemma KeepAliveAndChoke()
    ensures Frame(Message(None, None)) == Ok([0, 0, 0, 0])
    ensures Frame(Message(Some(CHOKE_ID), None)) == Ok([0, 0, 0, 0])
    ensures Deserialize([0, 0, 0, 0]) == Message(None, None)
    ensures forall p :: Frame(Message(Some(CHOKE_ID), Some(p))).Throw?
  {
    Pow256Values();
    assert BE(0, 1) == [0];
    assert BE(0, 2) == [0, 0];
    assert BE(0, 3) == [0, 0, 0];
    assert U32(0) == BE(0, 4) == [0, 0, 0, 0];
    assert MessageLength(Message(None, None)) == 0 && MessageLength(Message(Some(CHOKE_ID), None)) == 0;
    assert U32(0) + [] + [] == [0, 0, 0, 0];
    assert Frame(Message(None, None)) == Ok(U32(0) + [] + []);
    assert Frame(Message(Some(CHOKE_ID), None)) == Ok(U32(0) + [] + []);
  }

  /** The length prefix of a serialised message counts exactly the bytes after it. */
  lemma FramePrefix(m: Message)
    requires Frame(m).Ok?
    ensures |Frame(m).value| >= 4
    ensures FromBE(Frame(m).value[..4]) + 4 == |Frame(m).value|
  {
    Pow256Values();
    var f := Frame(m).value;
    assert f[..4] == U32(MessageLength(m));
    FromBEofBE(MessageLength(m), 4);
  }

  /** `deserialize` ignores the length prefix: frames differing only in their first four bytes read alike. */
  lemma DeserializeIgnoresPrefix(a: seq<byte>, b: seq<byte>)
    requires |a| >= 4 && |b| >= 4 && a[4..] == b[4..]
    ensures Deserialize(a) == Deserialize(b)
  {
    assert |a| == |b|;
    if |a| > 4 {
      assert a[4] == a[4..][0] == b[4..][0] == b[4];
      assert a[5..] == a[4..][1..];
      assert b[5..] == b[4..][1..];
    }
  }

  // ---------------------------------------------------------------------
  // request

  /** The 12-byte request payload: index, begin and length, big-endian. */
  function RequestPayload(b: PieceBlock): seq<byte>
    requires 0 <= b.index < 0x1_0000_0000 && b.begin < 0x1_0000_0000 && b.length < 0x1_0000_0000
  {
    Pow256Values();
    U32(b.index) + U32(b.begin) + U32(b.length)
  }

  predicate FitsRequest(b: PieceBlock)
  {
    0 <= b.index < 0x1_0000_0000 && b.begin < 0x1_0000_0000 && b.length < 0x1_0000_0000
  }

  /** `buildRequest`: fills a 12-byte payload; `writeUInt32BE` throws for a field outside 0 .. 2^32 - 1. */
  method BuildRequest(b: PieceBlock) returns (r: Result<Message>)
    ensures r.Ok? <==> FitsRequest(b)
    ensures r.Throw? ==> r.exception == RangeError
    ensures r.Ok? ==> r.value == Message(Some(REQUEST_ID), Some(RequestPayload(b)))
  {
    if !FitsRequest(b) {
      return Throw(RangeError);
    }
    Pow256Values();
    var payload := new byte[12](_ => 0);
    ConcatThree(U32(b.index), U32(b.begin), U32(b.length));
    var end := WriteFields(payload, [U32(b.index), U32(b.begin), U32(b.length)]);
    assert payload[..] == RequestPayload(b) + Zeros(0);
    assert payload[..] == RequestPayload(b);
    return Ok(Message(Some(REQUEST_ID), Some(payload[..])));
  }

  /** A serialised request is 17 bytes: prefix 13, id 6, then index, begin and length. */
  lemma RequestFrame(b: PieceBlock)
    requires FitsRequest(b)
    ensures Frame(Message(Some(REQUEST_ID), Some(RequestPayload(b)))) == Ok(U32(13) + [6] + RequestPayload(b))
    ensures |U32(13) + [6] + RequestPayload(b)| == 17
  {
    Pow256Values();
  }

  /** Reading the request payload back gives the block's three fields. */
  lemma RequestPayloadFields(b: PieceBlock)
    requires FitsRequest(b)
    ensures var p := RequestPayload(b);
      FromBE(p[..4]) == b.index && FromBE(p[4..8]) == b.begin && FromBE(p[8..12]) == b.length
  {
    Pow256Values();
    var p := RequestPayload(b);
    assert p[..4] == U32(b.index) && p[4..8] == U32(b.begin) && p[8..12] == U32(b.length);
    FromBEofBE(b.index, 4);
    FromBEofBE(b.begin, 4);
    FromBEofBE(b.length, 4);
  }

  // ---------------------------------------------------------------------
  // Parsers. Each returns `Ok(None)` for the object of nulls, `Ok(Some(..))` for values,
  // and throws a TypeError when the message has the right id but a null payload.

  /** `parseHave`. */
  function ParseHave(m: Message): (r: Result<Option<nat>>)
    ensures r.Ok? && r.value.Some? <==> m.id == Some(HAVE_ID) && m.payload.Some? && |m.payload.value| == 4
    ensures r.Throw? <==> m.id == Some(HAVE_ID) && m.payload.None?
    ensures r.Ok? && r.value.Some? ==> r.value.value < 0x1_0000_0000 && U32(r.value.value) == m.payload.value
  {
    if m.id != Some(HAVE_ID) then Ok(None)
    else if m.payload.None? then Throw(TypeError)
    else if |m.payload.value| != 4 then Ok(None)
    else
      BEofFromBE(m.payload.value);
      Ok(Some(FromBE(m.payload.value)))
  }

  datatype PieceResponse = PieceResponse(index: nat, begin: nat, block: seq<byte>)

  /** `parsePiece`: index and begin big-endian at 0 and 4, the block is everything after offset 8. */
  function ParsePiece(m: Message): (r: Result<Option<PieceResponse>>)
    ensures r.Ok? && r.value.Some? <==> m.id == Some(PIECE_ID) && m.payload.Some? && |m.payload.value| >= 8
    ensures r.Throw? <==> m.id == Some(PIECE_ID) && m.payload.None?
    ensures r.Ok? && r.value.Some? ==> var v := r.value.value;
      v.index < 0x1_0000_0000 && v.begin < 0x1_0000_0000 &&
      m.payload.value == U32(v.index) + U32(v.begin) + v.block
  {
    if m.id != Some(PIECE_ID) then Ok(None)
    else if m.payload.None? then Throw(TypeError)
    else if |m.payload.value| < 8 then Ok(None)
    else
      var p := m.payload.value;
      BEofFromBE(p[..4]);
      BEofFromBE(p[4..8]);
      assert p == p[..4] + p[4..8] + p[8..];
      Ok(Some(PieceResponse(FromBE(p[..4]), FromBE(p[4..8]), p[8..])))
  }

  // ---------------------------------------------------------------------
  // bitfield

  /** Bit k of a byte, counted from the least significant bit. */
  function Bit(b: nat, k: nat): bool
  {
    if k == 0 then b % 2 == 1 else Bit(b / 2, k - 1)
  }

  /**
   * The indices the inner loop of `parseBitfield` pushes for bits j .. 7 of a byte, where
   * `b` is the byte already halved j times and `base` is 8 times the byte's position.
   */
  function BitsFrom(base: nat, b: nat, j: nat): seq<nat>
    requires j <= 8
    decreases 8 - j
  {
    if j == 8 then [] else (if b % 2 == 1 then [base + 7 - j] else []) + BitsFrom(base, b / 2, j + 1)
  }

  /** All piece indices `parseBitfield` reports, byte by byte. */
  function BitfieldIndices(p: seq<byte>): seq<nat>
  {
    if p == [] then [] else BitfieldIndices(p[..|p| - 1]) + BitsFrom(8 * (|p| - 1), p[|p| - 1], 0)
  }

  /** `parseBitfield`: for each byte, eight times: push `i * 8 + 7 - j` if the low bit is set, then halve. */
  method ParseBitfield(m: Message) returns (r: Result<Option<seq<nat>>>)
    ensures r.Ok? && r.value.Some? <==> m.id == Some(BITFIELD_ID) && m.payload.Some?
    ensures r.Throw? <==> m.id == Some(BITFIELD_ID) && m.payload.None?
    ensures r.Throw? ==> r.exception == TypeError
    ensures r.Ok? && r.value.Some? ==> r.value.value == BitfieldIndices(m.payload.value)
  {
    if m.id != Some(BITFIELD_ID) {
      return Ok(None);
    }
    if m.payload.None? {
      return Throw(TypeError);
    }
    var payload := m.payload.value;
    var bitfield: seq<nat> := [];
    var i := 0;
    while i < |payload|
      invariant 0 <= i <= |payload|
      invariant bitfield == BitfieldIndices(payload[..i])
    {
      BitfieldIndicesStep(payload, i);
      bitfield := PushBits(bitfield, 8 * i, payload[i]);
      i := i + 1;
    }
    assert payload[..i] == payload;
    return Ok(Some(bitfield));
  }

  /** The inner loop of `parseBitfield`: eight turns of testing the low bit of the byte and halving it. */
  method PushBits(bitfield: seq<nat>, base: nat, b: byte) returns (r: seq<nat>)
    ensures r == bitfield + BitsFrom(base, b, 0)
  {
    r := bitfield;
    var byte: nat := b;
    var j := 0;
    ghost var goal := bitfield + BitsFrom(base, b, 0);
    while j < 8
      invariant 0 <= j <= 8
      invariant r + BitsFrom(base, byte, j) == goal
    {
      PushBitsStep(r, base, byte, j);
      if byte % 2 == 1 {
        var index: nat := base + 7 - j;
        r := r + [index];
      }
      byte := byte / 2;
      j := j + 1;
    }
    assert r + BitsFrom(base, byte, 8) == r;
  }

  lemma PushBitsStep(r: seq<nat>, base: nat, b: nat, j: nat)
    requires j < 8
    ensures (if b % 2 == 1 then r + [base + 7 - j] else r) + BitsFrom(base, b / 2, j + 1) == r + BitsFrom(base, b, j)
  {
    BitsFromStep(base, b, j);
    if b % 2 == 1 {
      AppendAssoc(r, [base + 7 - j], BitsFrom(base, b / 2, j + 1));
    }
  }

  lemma AppendAssoc(a: seq<nat>, b: seq<nat>, c: seq<nat>)
    ensures a + (b + c) == (a + b) + c
  {
  }

  lemma BitsFromStep(base: nat, b: nat, j: nat)
    requires j < 8
    ensures BitsFrom(base, b, j) == (if b % 2 == 1 then [base + 7 - j] else []) + BitsFrom(base, b / 2, j + 1)
  {
  }

  lemma BitfieldIndicesStep(p: seq<byte>, i: nat)
    requires i < |p|
    ensures BitfieldIndices(p[..i + 1]) == BitfieldIndices(p[..i]) + BitsFrom(8 * i, p[i], 0)
  {
    assert p[..i + 1][..i] == p[..i];
  }

  lemma {:induction false} BitsFromMember(base: nat, b: nat, j: nat, x: nat)
    requires j <= 8
    ensures x in BitsFrom(base, b, j) <==> base <= x <= base + 7 - j && Bit(b, base + 7 - j - x)
    decreases 8 - j
  {
    if j < 8 {
      BitsFromMember(base, b / 2, j + 1, x);
    }
  }

  /**
   * MSB-first: index n is reported exactly when the bit of byte n / 8 that lies n % 8
   * places below the most significant bit is set.
   */
  lemma {:induction false} BitfieldMember(p: seq<byte>, n: nat)
    ensures n in BitfieldIndices(p) <==> n < 8 * |p| && Bit(p[n / 8], 7 - n % 8)
  {
    if p != [] {
      var last := |p| - 1;
      var init := p[..last];
      assert BitfieldIndices(p) == BitfieldIndices(init) + BitsFrom(8 * last, p[last], 0);
      BitfieldMember(init, n);
      BitsFromMember(8 * last, p[last], 0, n);
      if n < 8 * last {
        assert init[n / 8] == p[n / 8];
      } else if n < 8 * last + 8 {
        Utils.DivUnique(n, 8, last, n - 8 * last);
      }
    }
  }

  /** Within one byte the indices come out most significant bit first: 0x81 gives [7, 0]. */
  lemma BitfieldExample()
    ensures BitfieldIndices([0x81]) == [7, 0]
  {
    assert BitsFrom(0, 0, 8) == [];
    BitsFromStep(0, 1, 7);
    BitsFromStep(0, 2, 6);
    BitsFromStep(0, 4, 5);
    BitsFromStep(0, 8, 4);
    BitsFromStep(0, 16, 3);
    BitsFromStep(0, 32, 2);
    BitsFromStep(0, 64, 1);
    BitsFromStep(0, 0x81, 0);
    assert BitsFrom(0, 64, 1) == [0];
    var p: seq<byte> := [0x81];
    assert p[..0] == [];
  }
}
