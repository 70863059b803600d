/**
 * The 68-byte BitTorrent handshake (section "handshake" of BEP 3): a length-prefixed
 * protocol string, eight reserved bytes, the 20-byte info hash and the 20-byte peer id.
 */
module Handshake {
  import opened Wrappers
  import opened Bytes
  import Utils

  const DEFAULT_PSTR: string := "BitTorrent protocol"
  const HANDSHAKE_LENGTH: nat := 68

  datatype Handshake = Handshake(pstr: string, infoHash: Option<seq<byte>>, peerId: Option<seq<byte>>)

  /** `new Handshake({ pstr, infoHash, peerId })`: a missing or empty protocol string is replaced by the default. */
  function NewHandshake(pstr: Option<string>, infoHash: Option<seq<byte>>, peerId: Option<seq<byte>>): (h: Handshake)
    ensures h.pstr != ""
    ensures pstr.Some? && pstr.value != "" ==> h.pstr == pstr.value
    ensures h.infoHash == infoHash && h.peerId == peerId
  {
    Handshake(if pstr.None? || pstr.value == "" then DEFAULT_PSTR else pstr.value, infoHash, peerId)
  }

  /**
   * The bytes `serialize` returns, step by step: the length byte (RangeError above 255),
   * at most 20 bytes of the protocol string from offset 1, eight zero bytes from offset 20
   * (which overwrite the string's 20th byte), then the info hash at 28 and the peer id at
   * 48 when present (RangeError when one runs past byte 68).
   */
  function HandshakeBytes(h: Handshake): (r: Result<seq<byte>>)
    requires IsAscii(h.pstr)
    ensures r.Ok? <==> (|h.pstr| < 256
                        && (h.infoHash.Some? ==> |h.infoHash.value| <= 40)
                        && (h.peerId.Some? ==> |h.peerId.value| <= 20))
    ensures r.Throw? ==> r.exception == RangeError
    ensures r.Ok? ==> |r.value| == HANDSHAKE_LENGTH && r.value[0] == |h.pstr|
    ensures r.Ok? ==> forall k :: 20 <= k < 28 ==> r.value[k] == 0
  {
    if |h.pstr| >= 256 then Throw(RangeError)
    else
      var text := AsciiBytes(h.pstr)[..Utils.Min(|h.pstr|, 20)];
      var s1 := Splice(Splice(Zeros(HANDSHAKE_LENGTH), 0, [|h.pstr|]), 1, text);
      var s2 := Splice(s1, 20, Zeros(8));
      if h.infoHash.Some? && |h.infoHash.value| > 40 then Throw(RangeError)
      else
        var s3 := if h.infoHash.Some? then Splice(s2, 28, h.infoHash.value) else s2;
        if h.peerId.Some? && |h.peerId.value| > 20 then Throw(RangeError)
        else Ok(if h.peerId.Some? then Splice(s3, 48, h.peerId.value) else s3)
  }

  /**
   * Where the fields land: the protocol string's first 19 bytes from offset 1, zeros after it
   * up to offset 20, the info hash from 28 (clipped at 48 when a peer id follows), and the
   * peer id from 48.
   */
  lemma HandshakeLayout(h: Handshake)
    requires IsAscii(h.pstr)
    ensures var r := HandshakeBytes(h);
      r.Ok? ==> var n := Utils.Min(|h.pstr|, 19);
        r.value[1..1 + n] == AsciiBytes(h.pstr)[..n] && forall k :: 1 + n <= k < 20 ==> r.value[k] == 0
    ensures var r := HandshakeBytes(h);
      r.Ok? && h.infoHash.Some? ==>
        var n := Utils.Min(|h.infoHash.value|, if h.peerId.Some? then 20 else 40);
        r.value[28..28 + n] == h.infoHash.value[..n]
    ensures var r := HandshakeBytes(h);
      r.Ok? && h.peerId.Some? ==> r.value[48..48 + |h.peerId.value|] == h.peerId.value
  {
    var r := HandshakeBytes(h);
    if r.Ok? {
      var text := AsciiBytes(h.pstr)[..Utils.Min(|h.pstr|, 20)];
      var s1 := Splice(Splice(Zeros(HANDSHAKE_LENGTH), 0, [|h.pstr|]), 1, text);
      var s2 := Splice(s1, 20, Zeros(8));
      var s3 := if h.infoHash.Some? then Splice(s2, 28, h.infoHash.value) else s2;
      assert r.value == if h.peerId.Some? then Splice(s3, 48, h.peerId.value) else s3;
      var n := Utils.Min(|h.pstr|, 19);
      assert forall k :: 1 <= k < 1 + n ==> r.value[k] == text[k - 1];
      assert r.value[1..1 + n] == AsciiBytes(h.pstr)[..n];
      if h.infoHash.Some? {
        var m := Utils.Min(|h.infoHash.value|, if h.peerId.Some? then 20 else 40);
        assert forall k :: 28 <= k < 28 + m ==> r.value[k] == s3[k];
        assert r.value[28..28 + m] == h.infoHash.value[..m];
      }
    }
  }

  /** `serialize`: the writes into a zero-filled 68-byte buffer, in the order above. */
  method Serialize(h: Handshake) returns (r: Result<seq<byte>>)
    requires IsAscii(h.pstr)
    ensures r == HandshakeBytes(h)
  {
    var buf := new byte[HANDSHAKE_LENGTH](_ => 0);
    assert buf[..] == Zeros(HANDSHAKE_LENGTH);
    if |h.pstr| >= 256 {
      return Throw(RangeError);
    }
    SetBytes(buf, [|h.pstr|], 0);
    SetBytes(buf, AsciiBytes(h.pstr)[..Utils.Min(|h.pstr|, 20)], 1);
    SetBytes(buf, Zeros(8), 20);
    if h.infoHash.Some? {
      if |h.infoHash.value| > 40 {
        return Throw(RangeError);
      }
      SetBytes(buf, h.infoHash.value, 28);
    }
    if h.peerId.Some? {
      if |h.peerId.value| > 20 {
        return Throw(RangeError);
      }
      SetBytes(buf, h.peerId.value, 48);
    }
    return Ok(buf[..]);
  }

  /**
   * `Handshake.deserialize`: the length byte (0 for an empty buffer), the string between
   * offset 1 and that length (clamped to the buffer), the info hash when more than 47
   * bytes arrived and everything from offset 48 as the peer id when more than 48 did.
   */
  function Deserialize(data: seq<byte>): (h: Handshake)
    ensures h.pstr != ""
    ensures h.infoHash.Some? <==> |data| > 47
    ensures h.peerId.Some? <==> |data| > 48
  {
    var pstrlen: nat := if |data| > 0 then data[0] else 0;
    var pstr := if |data| > 0 then DecodeUtf8(data[1..Utils.Min(1 + pstrlen, |data|)]) else "";
    NewHandshake(Some(pstr),
                 if |data| > 47 then Some(data[28..48]) else None,
                 if |data| > 48 then Some(data[48..]) else None)
  }

  /** A 20-byte value, or the 20 zero bytes a serialised handshake carries in its place. */
  function OrZeros(v: Option<seq<byte>>): seq<byte>
  {
    if v.Some? then v.value else Zeros(20)
  }

  /**
   * Reading back a serialised handshake whose protocol string has 1 to 19 ASCII characters
   * and whose fields are absent or 20 bytes long: the string and the fields are recovered,
   * and an absent field comes back as 20 zero bytes.
   */
  lemma DeserializeSerialize(h: Handshake)
    requires IsAscii(h.pstr) && 1 <= |h.pstr| <= 19
    requires h.infoHash.Some? ==> |h.infoHash.value| == 20
    requires h.peerId.Some? ==> |h.peerId.value| == 20
    ensures HandshakeBytes(h).Ok?
    ensures Deserialize(HandshakeBytes(h).value) == Handshake(h.pstr, Some(OrZeros(h.infoHash)), Some(OrZeros(h.peerId)))
  {
    var f := HandshakeBytes(h).value;
    var text := AsciiBytes(h.pstr);
    forall k | 0 <= k < |h.pstr|
      ensures f[1..1 + |h.pstr|][k] == text[k]
    {
      assert f[1 + k] == text[..Utils.Min(|h.pstr|, 20)][k];
    }
    assert f[1..1 + |h.pstr|] == text;
    DecodeAsciiBytes(h.pstr);
    assert f[28..48] == OrZeros(h.infoHash);
    assert f[48..] == OrZeros(h.peerId);
  }

  /** The client's own handshake, with the default string and both fields, round-trips exactly. */
  lemma DefaultRoundTrip(infoHash: seq<byte>, peerId: seq<byte>)
    requires |infoHash| == 20 && |peerId| == 20
    ensures var h := NewHandshake(None, Some(infoHash), Some(peerId));
      IsAscii(h.pstr) && HandshakeBytes(h).Ok? && Deserialize(HandshakeBytes(h).value) == h
  {
    DeserializeSerialize(NewHandshake(None, Some(infoHash), Some(peerId)));
  }

  /**
   * Only 19 characters of a protocol string survive: with 20 or more, the reserved bytes
   * overwrite the 20th, so a 20-character string reads back as its first 19 characters and
   * a NUL.
   */
  lemma TwentiethCharacterLost(h: Handshake)
    requires IsAscii(h.pstr) && |h.pstr| == 20
    requires h.infoHash.Some? && |h.infoHash.value| == 20 && h.peerId.Some? && |h.peerId.value| == 20
    ensures HandshakeBytes(h).Ok?
    ensures Deserialize(HandshakeBytes(h).value).pstr == h.pstr[..19] + ['\0']
    ensures h.pstr[19] != '\0' ==> Deserialize(HandshakeBytes(h).value) != h
  {
    var f := HandshakeBytes(h).value;
    assert f[1..21] == AsciiBytes(h.pstr)[..19] + [0];
    DecodeAsciiBytes(h.pstr[..19]);
    assert AsciiBytes(h.pstr)[..19] == AsciiBytes(h.pstr[..19]);
    assert DecodeUtf8(f[1..21]) == DecodeUtf8(AsciiBytes(h.pstr[..19])) + ['\0'];
    if h.pstr[19] != '\0' {
      assert Deserialize(f).pstr[19] != h.pstr[19];
    }
  }

  /** A buffer of at most 47 bytes carries neither field; one of exactly 48 carries the info hash only. */
  lemma TruncatedHandshake(data: seq<byte>)
    requires |data| <= 48
    ensures |data| <= 47 ==> Deserialize(data).infoHash.None? && Deserialize(data).peerId.None?
    ensures |data| == 48 ==> Deserialize(data).infoHash == Some(data[28..]) && Deserialize(data).peerId.None?
  {
    if |data| == 48 {
      assert data[28..48] == data[28..];
    }
  }

  /** A zero length byte, or no byte at all, yields the default protocol string. */
  lemma EmptyPstrIsDefault(data: seq<byte>)
    requires |data| == 0 || data[0] == 0
    ensures Deserialize(data).pstr == DEFAULT_PSTR
  {
    if |data| > 0 {
      assert data[1..1] == [];
    }
  }
}
