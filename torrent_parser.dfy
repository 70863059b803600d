/**
 * The torrent descriptor (`TorrentMetadata`): the fields extracted from the decoded
 * `.torrent` tree and the piece/block geometry computed from them.
 * The bencode decoding and the SHA-1 of the info dictionary are not modelled: the
 * decoded tree and the 20-byte info hash are inputs.
 */
module TorrentParser {
  import opened Wrappers
  import opened Bytes
  import Utils

  /** `BLOCK_LENGTH = 2 ** 14`. */
  const BLOCK_LENGTH: nat := 16384

  // ---------------------------------------------------------------------
  // The decoded `.torrent` tree (the part the parser reads)

  datatype FileEntry = FileEntry(length: nat, path: seq<seq<byte>>)

  /** `info`: `length` is present in single-file torrents, `files` in multi-file ones. */
  datatype Info = Info(
    name: seq<byte>,
    pieceLength: nat,
    pieces: seq<byte>,
    length: Option<nat>,
    files: Option<seq<FileEntry>>)

  /** `announce-list` is `Some` exactly when the tree holds a list under that key. */
  datatype TorrentObject = TorrentObject(
    announce: Option<seq<byte>>,
    announceList: Option<seq<seq<seq<byte>>>>,
    info: Info)

  // ---------------------------------------------------------------------
  // The descriptor

  datatype FileData = FileData(length: nat, path: seq<string>)

  /**
   * `{ index, begin, length }`. An index is a JavaScript number; a `have` message the
   * parser could not read gives a `null` index, written here as NULL_INDEX.
   */
  datatype PieceBlock = PieceBlock(index: int, begin: nat, length: nat)

  /** Stands for JavaScript `null` as a piece index: it equals no real index. */
  const NULL_INDEX: int := -1

  datatype TorrentMetadata = TorrentMetadata(
    announce: seq<string>,
    infoHash: string,            // hex form of infoHashBuffer
    infoHashBuffer: seq<byte>,
    infoName: string,
    infoLength: nat,
    infoPieceLength: nat,
    infoPieces: seq<byte>,
    filesData: seq<FileData>)

  // ---------------------------------------------------------------------
  // Extraction

  predicate EndsWith(s: string, suffix: string)
  {
    |s| >= |suffix| && s[|s| - |suffix|..] == suffix
  }

  function DecodeAll(parts: seq<seq<byte>>): (r: seq<string>)
    ensures |r| == |parts|
  {
    seq(|parts|, k requires 0 <= k < |parts| => DecodeUtf8(parts[k]))
  }

  /** The URLs of an announce list, outer list first, each inner list in order. */
  function FlattenUrls(lists: seq<seq<seq<byte>>>): seq<string>
  {
    if lists == [] then [] else FlattenUrls(lists[..|lists| - 1]) + DecodeAll(lists[|lists| - 1])
  }

  /** What `extractAnnounce` collects. */
  function AnnounceUrls(t: TorrentObject): seq<string>
  {
    if t.announceList.Some? then FlattenUrls(t.announceList.value)
    else if t.announce.Some? then [DecodeUtf8(t.announce.value)]
    else []
  }

  lemma DecodeAllStep(parts: seq<seq<byte>>, j: nat)
    requires j < |parts|
    ensures DecodeAll(parts[..j + 1]) == DecodeAll(parts[..j]) + [DecodeUtf8(parts[j])]
  {
  }

  /** `extractAnnounce`: pushes every URL of `announce-list`, or else `announce`. */
  method ExtractAnnounce(t: TorrentObject) returns (announce: seq<string>)
    ensures announce == AnnounceUrls(t)
  {
    announce := [];
    if t.announceList.Some? {
      var lists := t.announceList.value;
      var i := 0;
      while i < |lists|
        invariant 0 <= i <= |lists|
        invariant announce == FlattenUrls(lists[..i])
      {
        var urls := lists[i];
        var j := 0;
        while j < |urls|
          invariant 0 <= j <= |urls|
          invariant announce == FlattenUrls(lists[..i]) + DecodeAll(urls[..j])
        {
          DecodeAllStep(urls, j);
          announce := announce + [DecodeUtf8(urls[j])];
          j := j + 1;
        }
        assert urls[..j] == urls;
        assert lists[..i + 1][..i] == lists[..i];
        i := i + 1;
      }
      assert lists[..i] == lists;
    } else if t.announce.Some? {
      announce := announce + [DecodeUtf8(t.announce.value)];
    }
  }

  lemma {:induction false} FlattenUrlsAppend(a: seq<seq<seq<byte>>>, b: seq<seq<seq<byte>>>)
    ensures FlattenUrls(a + b) == FlattenUrls(a) + FlattenUrls(b)
    decreases |b|
  {
    if b != [] {
      var init := b[..|b| - 1];
      assert (a + b)[..|a + b| - 1] == a + init;
      FlattenUrlsAppend(a, init);
    } else {
      assert a + b == a;
    }
  }

  /**
   * Flattening keeps order: URL j of inner list i sits right after all URLs of the
   * inner lists before it.
   */
  lemma FlattenUrlsAt(lists: seq<seq<seq<byte>>>, i: nat, j: nat)
    requires i < |lists| && j < |lists[i]|
    ensures |FlattenUrls(lists[..i])| + j < |FlattenUrls(lists)|
    ensures FlattenUrls(lists)[|FlattenUrls(lists[..i])| + j] == DecodeUtf8(lists[i][j])
  {
    assert lists == lists[..i] + [lists[i]] + lists[i + 1..];
    FlattenUrlsAppend(lists[..i] + [lists[i]], lists[i + 1..]);
    FlattenUrlsAppend(lists[..i], [lists[i]]);
    var single: seq<seq<seq<byte>>> := [lists[i]];
    assert single[..0] == [];
    assert FlattenUrls(single) == DecodeAll(lists[i]);
  }

  /** The announce list wins: `announce` is ignored whenever `announce-list` is present. */
  lemma AnnounceListWins(t: TorrentObject)
    requires t.announceList.Some?
    ensures AnnounceUrls(t) == FlattenUrls(t.announceList.value)
  {
  }

  function DecodeFile(f: FileEntry): FileData
  {
    FileData(f.length, DecodeAll(f.path))
  }

  /** `extractFilesInfo`: one entry per file, in order; throws when `info.files` is absent. */
  method ExtractFilesInfo(t: TorrentObject) returns (r: Result<seq<FileData>>)
    ensures r.Ok? <==> t.info.files.Some?
    ensures r.Throw? ==> r.exception == TypeError
    ensures r.Ok? ==> |r.value| == |t.info.files.value|
    ensures r.Ok? ==> forall k :: 0 <= k < |r.value| ==>
      r.value[k].length == t.info.files.value[k].length
      && r.value[k].path == DecodeAll(t.info.files.value[k].path)
  {
    if t.info.files.None? {
      return Throw(TypeError);
    }
    var files := t.info.files.value;
    var filesData: seq<FileData> := [];
    var k := 0;
    while k < |files|
      invariant 0 <= k <= |files|
      invariant |filesData| == k
      invariant forall i :: 0 <= i < k ==> filesData[i] == DecodeFile(files[i])
    {
      filesData := filesData + [DecodeFile(files[k])];
      k := k + 1;
    }
    return Ok(filesData);
  }

  function SumLengths(files: seq<FileEntry>): nat
  {
    if files == [] then 0 else SumLengths(files[..|files| - 1]) + files[|files| - 1].length
  }

  /**
   * `extractInfoLength`: the sum of `files[*].length` when `files` is present (an empty
   * list makes `reduce` without a seed throw), else `BigInt(info.length)`, which throws
   * when `length` is absent.
   */
  function ExtractInfoLength(t: TorrentObject): (r: Result<nat>)
    ensures r.Throw? <==> (t.info.files == Some([]) || (t.info.files.None? && t.info.length.None?))
    ensures r.Ok? && t.info.files.Some? ==> r.value == SumLengths(t.info.files.value)
    ensures r.Ok? && t.info.files.None? ==> r.value == t.info.length.value
    ensures r.Throw? ==> r.exception == TypeError
  {
    match t.info.files
    case Some(files) => if files == [] then Throw(TypeError) else Ok(SumLengths(files))
    case None => if t.info.length.Some? then Ok(t.info.length.value) else Throw(TypeError)
  }

  const TORRENT_SUFFIX := ".torrent"

  /**
   * `new TorrentMetadata(torrentId)`, given the decoded tree and its info hash: the
   * extension check, then the extractions in the order `decodeTorrentFile` runs them.
   */
  method NewTorrentMetadata(torrentId: string, t: TorrentObject, infoHashBuffer: seq<byte>)
    returns (r: Result<TorrentMetadata>)
    requires |infoHashBuffer| == 20
    ensures !EndsWith(torrentId, TORRENT_SUFFIX) ==>
      r == Throw(Error("Unsupported torrent file extension"))
    ensures EndsWith(torrentId, TORRENT_SUFFIX) && (t.info.files.None? || t.info.files == Some([])) ==>
      r == Throw(TypeError)
    ensures r.Ok? <==> EndsWith(torrentId, TORRENT_SUFFIX) && t.info.files.Some? && t.info.files.value != []
    ensures r.Ok? ==> var m := r.value;
      && m.announce == AnnounceUrls(t)
      && m.infoHashBuffer == infoHashBuffer && m.infoHash == Hex(infoHashBuffer)
      && m.infoName == DecodeUtf8(t.info.name)
      && m.infoLength == SumLengths(t.info.files.value)
      && m.infoPieceLength == t.info.pieceLength
      && m.infoPieces == t.info.pieces
      && |m.filesData| == |t.info.files.value|
      && forall k :: 0 <= k < |m.filesData| ==> m.filesData[k] == DecodeFile(t.info.files.value[k])
  {
    if !EndsWith(torrentId, TORRENT_SUFFIX) {
      return Throw(Error("Unsupported torrent file extension"));
    }
    var announce := ExtractAnnounce(t);
    var infoLength := ExtractInfoLength(t);
    if infoLength.Throw? {
      return Throw(infoLength.exception);
    }
    var filesData := ExtractFilesInfo(t);
    if filesData.Throw? {
      return Throw(filesData.exception);
    }
    r := Ok(TorrentMetadata(announce, Hex(infoHashBuffer), infoHashBuffer, DecodeUtf8(t.info.name),
                            infoLength.value, t.info.pieceLength, t.info.pieces, filesData.value));
  }

  /** The descriptor's total length is the sum of the lengths of the files it lists. */
  function SumFileData(files: seq<FileData>): nat
  {
    if files == [] then 0 else SumFileData(files[..|files| - 1]) + files[|files| - 1].length
  }

  /** Decoding the file list keeps every length, so the total is the sum over `filesData`. */
  lemma {:induction false} SumLengthsDecoded(files: seq<FileEntry>, data: seq<FileData>)
    requires |data| == |files|
    requires forall k :: 0 <= k < |data| ==> data[k] == DecodeFile(files[k])
    ensures SumFileData(data) == SumLengths(files)
    decreases |files|
  {
    if files != [] {
      SumLengthsDecoded(files[..|files| - 1], data[..|data| - 1]);
    }
  }

  // ---------------------------------------------------------------------
  // Geometry

  /**
   * `getPieceLength`: the remainder `infoLength % infoPieceLength` at index
   * `floor(infoLength / infoPieceLength)`, the nominal length everywhere else. A zero
   * piece length makes both JavaScript values NaN or Infinity, which equal no index.
   */
  function GetPieceLength(m: TorrentMetadata, pieceIndex: int): (r: nat)
    ensures r <= m.infoPieceLength
  {
    if m.infoPieceLength != 0 && pieceIndex == m.infoLength / m.infoPieceLength
    then m.infoLength % m.infoPieceLength
    else m.infoPieceLength
  }

  /** `getBlocksPerPiece`: `Math.ceil(pieceLength / BLOCK_LENGTH)`. */
  function GetBlocksPerPiece(m: TorrentMetadata, pieceIndex: int): (r: nat)
    ensures (r - 1) * BLOCK_LENGTH < GetPieceLength(m, pieceIndex) <= r * BLOCK_LENGTH
    ensures r == 0 <==> GetPieceLength(m, pieceIndex) == 0
  {
    Utils.CeilDivBounds(GetPieceLength(m, pieceIndex), BLOCK_LENGTH);
    Utils.CeilDiv(GetPieceLength(m, pieceIndex), BLOCK_LENGTH)
  }

  /**
   * `getPieceBlockLength` as written: it compares the block index with the remainder
   * `pieceLength % BLOCK_LENGTH` and then answers the quotient.
   */
  function GetPieceBlockLength(m: TorrentMetadata, pieceIndex: int, blockIndex: int): nat
  {
    var pieceLength := GetPieceLength(m, pieceIndex);
    if blockIndex == pieceLength % BLOCK_LENGTH then pieceLength / BLOCK_LENGTH else BLOCK_LENGTH
  }

  /** `getPieceBlocks`: the blocks of a piece, 16 KiB apart from offset 0. */
  function GetPieceBlocks(m: TorrentMetadata, pieceIndex: int): (r: seq<PieceBlock>)
    ensures |r| == GetBlocksPerPiece(m, pieceIndex)
    ensures forall k :: 0 <= k < |r| ==>
      r[k].index == pieceIndex && r[k].begin % BLOCK_LENGTH == 0 && r[k].begin / BLOCK_LENGTH == k
      && r[k].begin < GetPieceLength(m, pieceIndex)
      && r[k].length == GetPieceBlockLength(m, pieceIndex, k)
  {
    var n := GetBlocksPerPiece(m, pieceIndex);
    seq(n, k requires 0 <= k < n => PieceBlock(pieceIndex, k * BLOCK_LENGTH, GetPieceBlockLength(m, pieceIndex, k)))
  }

  /** The number of pieces implied by the total length. */
  function PieceCount(m: TorrentMetadata): nat
    requires m.infoPieceLength > 0
  {
    Utils.CeilDiv(m.infoLength, m.infoPieceLength)
  }

  function SumPieceLengths(m: TorrentMetadata, n: nat): nat
  {
    if n == 0 then 0 else SumPieceLengths(m, n - 1) + GetPieceLength(m, n - 1)
  }

  lemma {:induction false} SumFullPieces(m: TorrentMetadata, n: nat)
    requires m.infoPieceLength > 0 && n <= m.infoLength / m.infoPieceLength
    ensures SumPieceLengths(m, n) == n * m.infoPieceLength
  {
    if n > 0 {
      SumFullPieces(m, n - 1);
    }
  }

  /** The piece lengths of pieces 0 .. ceil(total / P) - 1 add up to the total length. */
  lemma PieceLengthsSumToTotal(m: TorrentMetadata)
    requires m.infoPieceLength > 0
    ensures SumPieceLengths(m, PieceCount(m)) == m.infoLength
  {
    var p, q := m.infoPieceLength, m.infoLength / m.infoPieceLength;
    Utils.CeilDivExact(m.infoLength, p);
    SumFullPieces(m, q);
    assert m.infoLength == q * p + m.infoLength % p;
  }

  /** Only the last piece is short; when P divides the total, the index getPieceLength treats as last is one past the end. */
  lemma LastPieceIndex(m: TorrentMetadata, i: nat)
    requires m.infoPieceLength > 0 && i < PieceCount(m)
    ensures GetPieceLength(m, i) == if i == PieceCount(m) - 1 && m.infoLength % m.infoPieceLength != 0
                                    then m.infoLength % m.infoPieceLength else m.infoPieceLength
    ensures m.infoLength % m.infoPieceLength == 0 ==> GetPieceLength(m, PieceCount(m)) == 0
  {
    Utils.CeilDivExact(m.infoLength, m.infoPieceLength);
  }

  /** The sum of block lengths of a piece, as `getPieceBlocks` reports them. */
  function SumBlockLengths(m: TorrentMetadata, pieceIndex: int, n: nat): nat
  {
    if n == 0 then 0 else SumBlockLengths(m, pieceIndex, n - 1) + GetPieceBlockLength(m, pieceIndex, n - 1)
  }

  /** A block length the code evidently means: 16 KiB, except a short remainder in the last block. */
  function IntendedBlockLength(pieceLength: nat, blockIndex: nat): nat
  {
    if blockIndex == Utils.CeilDiv(pieceLength, BLOCK_LENGTH) - 1 && pieceLength % BLOCK_LENGTH != 0
    then pieceLength % BLOCK_LENGTH
    else BLOCK_LENGTH
  }

  function SumIntended(pieceLength: nat, n: nat): nat
  {
    if n == 0 then 0 else SumIntended(pieceLength, n - 1) + IntendedBlockLength(pieceLength, n - 1)
  }

  lemma {:induction false} SumIntendedFull(pieceLength: nat, n: nat)
    requires n <= pieceLength / BLOCK_LENGTH
    ensures SumIntended(pieceLength, n) == n * BLOCK_LENGTH
  {
    Utils.CeilDivExact(pieceLength, BLOCK_LENGTH);
    if n > 0 {
      SumIntendedFull(pieceLength, n - 1);
    }
  }

  /** With the intended rule, the blocks of every piece add up to the piece length. */
  lemma IntendedBlocksSumToPiece(pieceLength: nat)
    ensures SumIntended(pieceLength, Utils.CeilDiv(pieceLength, BLOCK_LENGTH)) == pieceLength
  {
    var q := pieceLength / BLOCK_LENGTH;
    Utils.CeilDivExact(pieceLength, BLOCK_LENGTH);
    SumIntendedFull(pieceLength, q);
    assert pieceLength == q * BLOCK_LENGTH + pieceLength % BLOCK_LENGTH;
  }

  /**
   * As written, the block lengths need not add up to the piece length: with 32 KiB
   * pieces and 48 KiB in all, block 0 of piece 0 is 2 bytes long, and the one block of
   * the 16 KiB last piece is 1 byte long.
   */
  lemma BlockLengthsAsWrittenExample()
    ensures var m := TorrentMetadata([], "", [], "", 49152, 32768, [], []);
      && GetBlocksPerPiece(m, 0) == 2 && GetPieceBlockLength(m, 0, 0) == 2
      && SumBlockLengths(m, 0, 2) == 16386 != GetPieceLength(m, 0)
      && GetPieceLength(m, 1) == 16384 && GetBlocksPerPiece(m, 1) == 1
      && GetPieceBlockLength(m, 1, 0) == 1
      && SumIntended(32768, 2) == 32768 && IntendedBlockLength(16384, 0) == 16384
  {
    var m := TorrentMetadata([], "", [], "", 49152, 32768, [], []);
    assert GetPieceLength(m, 0) == 32768;
    assert Utils.CeilDiv(32768, BLOCK_LENGTH) == 2;
    assert Utils.CeilDiv(16384, BLOCK_LENGTH) == 1;
  }

  /** A last piece shorter than a block is requested as a full 16 KiB block. */
  lemma ShortPieceBlockLengthExample()
    ensures var m := TorrentMetadata([], "", [], "", 100, 32768, [], []);
      && GetPieceLength(m, 0) == 100 && GetBlocksPerPiece(m, 0) == 1
      && GetPieceBlocks(m, 0) == [PieceBlock(0, 0, 16384)]
      && IntendedBlockLength(100, 0) == 100
  {
    var m := TorrentMetadata([], "", [], "", 100, 32768, [], []);
    assert Utils.CeilDiv(100, BLOCK_LENGTH) == 1;
  }
}
