/**
 * The block ledger (`PieceManager`): which blocks of which pieces have been requested
 * and which have been received, as two ragged boolean matrices updated in place.
 */
module Pieces {
  import opened Wrappers
  import opened TorrentParser

  /** One row per piece, one entry per block. */
  type Matrix = seq<seq<bool>>

  ghost predicate AllTrue(m: Matrix)
  {
    forall i, j :: 0 <= i < |m| && 0 <= j < |m[i]| ==> m[i][j]
  }

  ghost predicate SameShape(a: Matrix, b: Matrix)
  {
    |a| == |b| && forall i :: 0 <= i < |a| ==> |a[i]| == |b[i]|
  }

  /** Entries only go from false to true between a and b. */
  ghost predicate Grows(a: Matrix, b: Matrix)
  {
    SameShape(a, b) && forall i, j :: 0 <= i < |a| && 0 <= j < |a[i]| && a[i][j] ==> b[i][j]
  }

  /** `row.every(Boolean)`. */
  function RowEvery(row: seq<bool>): (r: bool)
    ensures r <==> forall j :: 0 <= j < |row| ==> row[j]
  {
    if row == [] then true else row[0] && RowEvery(row[1..])
  }

  /** `m.every((blocks) => blocks.every(Boolean))`. */
  function Every(m: Matrix): (r: bool)
    ensures r <==> AllTrue(m)
  {
    if m == [] then true
    else
      var rest := Every(m[1..]);
      assert AllTrue(m[1..]) ==> forall i, j :: 1 <= i < |m| && 0 <= j < |m[i]| ==> m[i][j] by {
        if AllTrue(m[1..]) {
          forall i, j | 1 <= i < |m| && 0 <= j < |m[i]| ensures m[i][j] {
            assert m[i] == m[1..][i - 1];
          }
        }
      }
      RowEvery(m[0]) && rest
  }

  /** A ledger of `nPieces` rows shaped by `getBlocksPerPiece`, every entry false. */
  function EmptyLedger(meta: TorrentMetadata, nPieces: nat): (m: Matrix)
    ensures |m| == nPieces
    ensures forall i :: 0 <= i < nPieces ==> |m[i]| == GetBlocksPerPiece(meta, i)
    ensures forall i, j :: 0 <= i < nPieces && 0 <= j < |m[i]| ==> !m[i][j]
  {
    seq(nPieces, i requires 0 <= i < nPieces => seq(GetBlocksPerPiece(meta, i), _ => false))
  }

  /** The entry `m[index][begin / BLOCK_LENGTH]` exists (the offset is a whole block inside the row). */
  predicate HasSlot(m: Matrix, index: int, begin: nat)
  {
    0 <= index < |m| && begin % BLOCK_LENGTH == 0 && begin / BLOCK_LENGTH < |m[index]|
  }

  /** `m[index][begin / BLOCK_LENGTH] = true`. */
  function Mark(m: Matrix, index: int, begin: nat): (r: Matrix)
    requires HasSlot(m, index, begin)
    ensures SameShape(m, r)
  {
    m[index := m[index][begin / BLOCK_LENGTH := true]]
  }

  /**
   * `m[index][begin / BLOCK_LENGTH] = true` in JavaScript: the row lookup throws for an index
   * with no row; a fractional block index names no entry, so the matrix stays as it was.
   */
  function Write(m: Matrix, index: int, begin: nat): (r: Result<Matrix>)
    ensures r.Ok? <==> 0 <= index < |m|
    ensures r.Throw? ==> r.exception == TypeError
    ensures r.Ok? ==> Grows(m, r.value)
    ensures r.Ok? && HasSlot(m, index, begin) ==> r.value[index][begin / BLOCK_LENGTH]
    ensures r.Ok? ==> forall i, j ::
      (0 <= i < |m| && 0 <= j < |m[i]| && (i != index || j * BLOCK_LENGTH != begin)) ==> r.value[i][j] == m[i][j]
  {
    if !(0 <= index < |m|) then Throw(TypeError)
    else if HasSlot(m, index, begin) then Ok(Mark(m, index, begin))
    else Ok(m)
  }

  /** `!m[index][begin / BLOCK_LENGTH]`: throws without a row; a missing entry is `undefined`, so needed. */
  function Lookup(m: Matrix, index: int, begin: nat): (r: Result<bool>)
    ensures r.Ok? <==> 0 <= index < |m|
    ensures r.Throw? ==> r.exception == TypeError
    ensures HasSlot(m, index, begin) ==> r == Ok(!m[index][begin / BLOCK_LENGTH])
  {
    if !(0 <= index < |m|) then Throw(TypeError)
    else if HasSlot(m, index, begin) then Ok(!m[index][begin / BLOCK_LENGTH])
    else Ok(true)
  }

  /** The `requested` matrix `needed` consults: a copy of `received` once every block has been requested. */
  function NeededState(requested: Matrix, received: Matrix): Matrix
  {
    if Every(requested) then received else requested
  }

  function RowCount(row: seq<bool>): (n: nat)
    ensures n <= |row|
    ensures n == |row| <==> forall j :: 0 <= j < |row| ==> row[j]
  {
    if row == [] then 0 else (if row[0] then 1 else 0) + RowCount(row[1..])
  }

  /** `blocks.filter(Boolean).length` summed over the rows. */
  function CountTrue(m: Matrix): nat
  {
    if m == [] then 0 else RowCount(m[0]) + CountTrue(m[1..])
  }

  /** `blocks.length` summed over the rows. */
  function CountAll(m: Matrix): nat
  {
    if m == [] then 0 else |m[0]| + CountAll(m[1..])
  }

  /** The downloaded count never exceeds the total, and reaches it exactly when every block is in. */
  lemma {:induction false} CountTrueBounds(m: Matrix)
    ensures CountTrue(m) <= CountAll(m)
    ensures CountTrue(m) == CountAll(m) <==> AllTrue(m)
  {
    if m != [] {
      CountTrueBounds(m[1..]);
      if AllTrue(m) {
        assert AllTrue(m[1..]) by {
          forall i, j | 0 <= i < |m[1..]| && 0 <= j < |m[1..][i]| ensures m[1..][i][j] {
            assert m[1..][i] == m[i + 1];
          }
        }
        assert forall j :: 0 <= j < |m[0]| ==> m[0][j];
      }
      if CountTrue(m) == CountAll(m) {
        assert RowCount(m[0]) == |m[0]|;
        forall i, j | 0 <= i < |m| && 0 <= j < |m[i]| ensures m[i][j] {
          if i > 0 {
            assert m[i] == m[1..][i - 1];
          }
        }
      }
    }
  }

  /** Growing entries keeps a full matrix full: once done, the ledger stays done. */
  lemma DoneStaysDone(a: Matrix, b: Matrix)
    requires AllTrue(a) && Grows(a, b)
    ensures AllTrue(b)
  {
  }

  /** Right after `addRequested(b)`, `needed(b)` answers false unless that request completed the matrix. */
  lemma NotNeededAfterRequest(requested: Matrix, received: Matrix, b: PieceBlock)
    requires HasSlot(requested, b.index, b.begin)
    requires !AllTrue(Mark(requested, b.index, b.begin))
    ensures Lookup(NeededState(Mark(requested, b.index, b.begin), received), b.index, b.begin) == Ok(false)
  {
  }

  /** Once every block is requested, a block not yet received is needed again. */
  lemma ResetMakesMissingNeeded(requested: Matrix, received: Matrix, b: PieceBlock)
    requires AllTrue(requested)
    requires HasSlot(received, b.index, b.begin) && !received[b.index][b.begin / BLOCK_LENGTH]
    ensures Lookup(NeededState(requested, received), b.index, b.begin) == Ok(true)
  {
  }

  class PieceManager {
    var requested: Matrix
    var received: Matrix

    /** Both matrices keep the shape they were built with. */
    ghost predicate Valid()
      reads this
    {
      SameShape(requested, received)
    }

    /** The ledger has `infoPieces.length / 20` rows of `getBlocksPerPiece(i)` entries. */
    ghost predicate Shaped(meta: TorrentMetadata)
      reads this
    {
      Valid() && |received| == |meta.infoPieces| / 20
      && forall i :: 0 <= i < |received| ==> |received[i]| == GetBlocksPerPiece(meta, i)
    }

    /** `new PieceManager(metadata)`; `new Array(n)` throws unless n = infoPieces.length / 20 is whole. */
    constructor (meta: TorrentMetadata)
      requires |meta.infoPieces| % 20 == 0
      ensures requested == EmptyLedger(meta, |meta.infoPieces| / 20)
      ensures received == EmptyLedger(meta, |meta.infoPieces| / 20)
      ensures Shaped(meta)
    {
      requested := EmptyLedger(meta, |meta.infoPieces| / 20);
      received := EmptyLedger(meta, |meta.infoPieces| / 20);
    }

    /** `addRequested`: marks one entry of `requested`; `received` is untouched. */
    method AddRequested(b: PieceBlock) returns (ok: bool)
      requires Valid()
      modifies this
      ensures Valid()
      ensures ok <==> 0 <= b.index < |old(requested)|
      ensures ok ==> requested == Write(old(requested), b.index, b.begin).value
      ensures !ok ==> requested == old(requested)
      ensures received == old(received)
    {
      var w := Write(requested, b.index, b.begin);
      if w.Throw? {
        return false;
      }
      requested := w.value;
      return true;
    }

    /** `addReceived`: marks one entry of `received`; `requested` is untouched. */
    method AddReceived(index: int, begin: nat) returns (ok: bool)
      requires Valid()
      modifies this
      ensures Valid()
      ensures ok <==> 0 <= index < |old(received)|
      ensures ok ==> received == Write(old(received), index, begin).value
      ensures !ok ==> received == old(received)
      ensures Grows(old(received), received)
      ensures requested == old(requested)
    {
      var w := Write(received, index, begin);
      if w.Throw? {
        return false;
      }
      received := w.value;
      return true;
    }

    /**
     * `needed`: when every entry of `requested` is true (vacuously so for an empty
     * ledger), `requested` first becomes a row-by-row copy of `received`; then the
     * answer is whether the block's entry is not requested.
     */
    method Needed(b: PieceBlock) returns (r: Result<bool>)
      requires Valid()
      modifies this
      ensures Valid()
      ensures requested == NeededState(old(requested), old(received))
      ensures AllTrue(old(requested)) ==> requested == received
      ensures !AllTrue(old(requested)) ==> requested == old(requested)
      ensures received == old(received)
      ensures r == Lookup(requested, b.index, b.begin)
    {
      if Every(requested) {
        requested := received;
      }
      r := Lookup(requested, b.index, b.begin);
    }

    /** `isDone`: every entry of `received` is true. */
    function IsDone(): (done: bool)
      reads this
      ensures done <==> AllTrue(received)
    {
      Every(received)
    }

    /** The two counts `printPercentDone` reports: blocks received and blocks in all. */
    function Progress(): (counts: (nat, nat))
      reads this
      ensures counts.0 <= counts.1
      ensures counts.0 == counts.1 <==> IsDone()
    {
      CountTrueBounds(received);
      (CountTrue(received), CountAll(received))
    }
  }

  /**
   * The two-piece torrent of 48 KiB with 32 KiB pieces: rows of 2 and 1 blocks, and the
   * ledger is done once those three blocks are received.
   */
  lemma TwoPieceLedgerExample()
    ensures var meta := TorrentMetadata([], "", [], "", 49152, 32768, seq(40, _ => 0), []);
      var m0 := EmptyLedger(meta, 2);
      && |m0| == 2 && |m0[0]| == 2 && |m0[1]| == 1
      && AllTrue(Mark(Mark(Mark(m0, 0, 0), 0, 16384), 1, 0))
  {
    var meta := TorrentMetadata([], "", [], "", 49152, 32768, seq(40, _ => 0), []);
    BlockLengthsAsWrittenExample();
    var m0 := EmptyLedger(meta, 2);
    assert |m0[0]| == 2 && |m0[1]| == 1;
    assert m0[0] == [false, false] && m0[1] == [false];
    assert m0 == [[false, false], [false]];
    var m1 := Mark(m0, 0, 0);
    assert m1[0] == [true, false] && m1[1] == [false];
    var m2 := Mark(m1, 0, 16384);
    assert m2[0] == [true, true] && m2[1] == [false];
    var m3 := Mark(m2, 1, 0);
    assert m3[0] == [true, true] && m3[1] == [true];
  }
}
