/**
 * The byte-level vocabulary of Node's `Buffer` that the client relies on:
 * big-endian unsigned integers, `Buffer.set` into a zero-filled buffer,
 * `readInt8`, hex rendering and the UTF-8 decoding of ASCII text.
 */
module Bytes {

  type byte = b: int | 0 <= b < 256

  /** 256^n, the number of distinct values of an n-byte field. */
  function Pow256(n: nat): (r: nat)
    ensures r >= 1
  {
    if n == 0 then 1 else 256 * Pow256(n - 1)
  }

  /** n written as `width` big-endian bytes (writeUInt16BE / writeUInt32BE / writeBigUInt64BE). */
  function BE(n: nat, width: nat): (r: seq<byte>)
    requires n < Pow256(width)
    ensures |r| == width
    decreases width
  {
    if width == 0 then [] else BE(n / 256, width - 1) + [n % 256]
  }

  /** The unsigned big-endian value of a byte string (readUInt16BE / readUInt32BE / readBigUInt64BE). */
  function FromBE(s: seq<byte>): (n: nat)
    ensures n < Pow256(|s|)
  {
    if |s| == 0 then 0 else FromBE(s[..|s| - 1]) * 256 + s[|s| - 1]
  }

  function U16(n: nat): (r: seq<byte>)
    requires n < 0x1_0000
    ensures |r| == 2
  {
    Pow256Values();
    BE(n, 2)
  }

  function U32(n: nat): (r: seq<byte>)
    requires n < 0x1_0000_0000
    ensures |r| == 4
  {
    Pow256Values();
    BE(n, 4)
  }

  function U64(n: nat): (r: seq<byte>)
    requires n < 0x1_0000_0000_0000_0000
    ensures |r| == 8
  {
    Pow256Values();
    BE(n, 8)
  }

  lemma Pow256Values()
    ensures Pow256(1) == 0x100 && Pow256(2) == 0x1_0000 && Pow256(4) == 0x1_0000_0000
    ensures Pow256(8) == 0x1_0000_0000_0000_0000
  {
    assert Pow256(1) == 256;
    assert Pow256(2) == 65536;
    assert Pow256(3) == 16777216;
    assert Pow256(4) == 0x1_0000_0000;
    assert Pow256(5) == 0x100_0000_0000;
    assert Pow256(6) == 0x1_0000_0000_0000;
    assert Pow256(7) == 0x100_0000_0000_0000;
  }

  /** Reading back a written big-endian field yields the value written. */
  lemma {:induction false} FromBEofBE(n: nat, width: nat)
    requires n < Pow256(width)
    ensures FromBE(BE(n, width)) == n
    decreases width
  {
    if width > 0 {
      var s := BE(n, width);
      assert s[..width - 1] == BE(n / 256, width - 1);
      FromBEofBE(n / 256, width - 1);
    }
  }

  /** Writing back a read big-endian field reproduces the bytes read. */
  lemma {:induction false} BEofFromBE(s: seq<byte>)
    ensures BE(FromBE(s), |s|) == s
  {
    if |s| > 0 {
      var p := s[..|s| - 1];
      BEofFromBE(p);
      assert FromBE(s) / 256 == FromBE(p);
      assert FromBE(s) % 256 == s[|s| - 1];
      assert s == p + [s[|s| - 1]];
    }
  }

  /** Two values with the same big-endian encoding are equal. */
  lemma BEInjective(m: nat, n: nat, width: nat)
    requires m < Pow256(width) && n < Pow256(width)
    requires BE(m, width) == BE(n, width)
    ensures m == n
  {
    FromBEofBE(m, width);
    FromBEofBE(n, width);
  }

  /** `Buffer.readInt8`: a byte read as a two's-complement signed value. */
  function Int8(b: byte): (r: int)
    ensures -128 <= r < 128
    ensures r % 256 == b
  {
    if b < 128 then b else b - 256
  }

  /** `Buffer.alloc(n)`: n zero bytes. */
  function Zeros(n: nat): (r: seq<byte>)
    ensures |r| == n && forall i :: 0 <= i < n ==> r[i] == 0
  {
    seq(n, _ => 0)
  }

  /** The bytes of `s` with `src` copied over them from `offset` on (`Buffer.set`). */
  function Splice(s: seq<byte>, offset: nat, src: seq<byte>): (r: seq<byte>)
    requires offset + |src| <= |s|
    ensures |r| == |s|
    ensures forall j :: 0 <= j < |s| ==>
      r[j] == if offset <= j < offset + |src| then src[j - offset] else s[j]
  {
    s[..offset] + src + s[offset + |src|..]
  }

  /** `buf.set(src, offset)`: copies src into buf at offset, byte by byte. */
  method SetBytes(buf: array<byte>, src: seq<byte>, offset: nat)
    requires offset + |src| <= buf.Length
    modifies buf
    ensures buf[..] == Splice(old(buf[..]), offset, src)
  {
    var i := 0;
    while i < |src|
      invariant 0 <= i <= |src|
      invariant forall j :: 0 <= j < buf.Length ==>
        buf[j] == if offset <= j < offset + i then src[j - offset] else old(buf[j])
    {
      buf[offset + i] := src[i];
      i := i + 1;
    }
    assert buf[..] == Splice(old(buf[..]), offset, src);
  }

  /** Writing the next field right after what is already written into a zero-filled buffer. */
  lemma SpliceAppend(written: seq<byte>, src: seq<byte>, n: nat)
    requires |written| + |src| <= n
    ensures Splice(written + Zeros(n - |written|), |written|, src)
         == (written + src) + Zeros(n - |written| - |src|)
  {
  }

  /** `b` holds `w` from its start and zeros after it: a zero-filled buffer after writes at rising offsets. */
  ghost predicate Filled(b: seq<byte>, w: seq<byte>)
  {
    |w| <= |b| && b == w + Zeros(|b| - |w|)
  }

  /** A fresh zero-filled buffer has nothing written; a buffer filled to its end is what was written. */
  lemma FilledEnds(b: seq<byte>, w: seq<byte>)
    ensures b == Zeros(|b|) ==> Filled(b, [])
    ensures Filled(b, w) && |w| == |b| ==> b == w
  {
    assert [] + b == b;
    assert w + [] == w;
  }

  /** Three writes after a prefix hold the prefix followed by the three fields together. */
  lemma AppendThree(p: seq<byte>, a: seq<byte>, b: seq<byte>, c: seq<byte>)
    ensures ((p + a) + b) + c == p + (a + b + c)
  {
  }

  /** `buf.set(src, offset)` (or a `write*BE`) where `offset` is the end of what has been written so far. */
  method WriteAt(buf: array<byte>, ghost written: seq<byte>, src: seq<byte>, offset: nat)
    requires offset == |written| && offset + |src| <= buf.Length
    requires Filled(buf[..], written)
    modifies buf
    ensures Filled(buf[..], written + src)
  {
    SpliceAppend(written, src, buf.Length);
    SetBytes(buf, src, offset);
  }

  /** A buffer of n bytes filled from its start by successive writes of `fields`. */
  method WriteFields(buf: array<byte>, fields: seq<seq<byte>>) returns (end: nat)
    requires forall j :: 0 <= j < buf.Length ==> buf[j] == 0
    requires |Concat(fields)| <= buf.Length
    modifies buf
    ensures end == |Concat(fields)|
    ensures buf[..] == Concat(fields) + Zeros(buf.Length - end)
  {
    assert buf[..] == [] + Zeros(buf.Length);
    var k := 0;
    end := 0;
    while k < |fields|
      invariant 0 <= k <= |fields|
      invariant end == |Concat(fields[..k])| <= |Concat(fields)|
      invariant buf[..] == Concat(fields[..k]) + Zeros(buf.Length - end)
    {
      ConcatSplit(fields, k);
      ConcatPrefixLength(fields, k + 1);
      SpliceAppend(Concat(fields[..k]), fields[k], buf.Length);
      SetBytes(buf, fields[k], end);
      end := end + |fields[k]|;
      k := k + 1;
    }
    assert fields[..k] == fields;
  }

  /** The concatenation of a sequence of byte strings. */
  function Concat(parts: seq<seq<byte>>): (r: seq<byte>)
  {
    if parts == [] then [] else Concat(parts[..|parts| - 1]) + parts[|parts| - 1]
  }

  lemma ConcatThree(a: seq<byte>, b: seq<byte>, c: seq<byte>)
    ensures Concat([a, b, c]) == a + b + c
  {
    var parts := [a, b, c];
    var none: seq<seq<byte>> := [];
    assert parts[..2] == [a, b] && [a, b][..1] == [a] && [a][..0] == none;
    assert Concat([a]) == a;
    assert Concat([a, b]) == a + b;
  }

  lemma ConcatSplit(parts: seq<seq<byte>>, k: nat)
    requires k < |parts|
    ensures Concat(parts[..k + 1]) == Concat(parts[..k]) + parts[k]
  {
    assert parts[..k + 1][..k] == parts[..k];
  }

  lemma {:induction false} ConcatPrefixLength(parts: seq<seq<byte>>, k: nat)
    requires k <= |parts|
    ensures |Concat(parts[..k])| <= |Concat(parts)|
    decreases |parts|
  {
    if k < |parts| {
      var init := parts[..|parts| - 1];
      assert init[..k] == parts[..k];
      ConcatPrefixLength(init, k);
    } else {
      assert parts[..k] == parts;
    }
  }

  // ---------------------------------------------------------------------
  // Text

  function HexDigit(d: nat): (c: char)
    requires d < 16
    ensures c in "0123456789abcdef"
  {
    "0123456789abcdef"[d]
  }

  /** `buf.toString('hex')`: two lower-case hex digits per byte, high nibble first. */
  function Hex(bs: seq<byte>): (r: string)
    ensures |r| == 2 * |bs|
  {
    if bs == [] then "" else [HexDigit(bs[0] / 16), HexDigit(bs[0] % 16)] + Hex(bs[1..])
  }

  lemma HexDigitInjective(d: nat, e: nat)
    requires d < 16 && e < 16 && HexDigit(d) == HexDigit(e)
    ensures d == e
  {
  }

  /** Equal hex renderings come from equal byte strings. */
  lemma {:induction false} HexInjective(a: seq<byte>, b: seq<byte>)
    requires Hex(a) == Hex(b)
    ensures a == b
  {
    if a != [] {
      assert |b| == |a|;
      HexHead(a);
      HexHead(b);
      HexPairInjective(a[0], b[0]);
      HexInjective(a[1..], b[1..]);
      assert a == [a[0]] + a[1..] && b == [b[0]] + b[1..];
    }
  }

  /** The first byte's two digits, then the rest. */
  lemma HexHead(a: seq<byte>)
    requires a != []
    ensures Hex(a)[0] == HexDigit(a[0] / 16) && Hex(a)[1] == HexDigit(a[0] % 16)
    ensures Hex(a)[2..] == Hex(a[1..])
  {
  }

  /** A byte is determined by its two hex digits. */
  lemma HexPairInjective(x: byte, y: byte)
    requires HexDigit(x / 16) == HexDigit(y / 16) && HexDigit(x % 16) == HexDigit(y % 16)
    ensures x == y
  {
    HexDigitInjective(x / 16, y / 16);
    HexDigitInjective(x % 16, y % 16);
    assert x == 16 * (x / 16) + x % 16;
    assert y == 16 * (y / 16) + y % 16;
  }

  /** The replacement character a UTF-8 decoder yields for a byte it cannot decode alone. */
  const REPLACEMENT := '\U{FFFD}'

  /**
   * `new TextDecoder('utf-8').decode(bs)` and `buf.toString('utf8')`, modelled for
   * ASCII text: every byte below 128 is its own character; any other byte becomes
   * U+FFFD (multi-byte sequences are not modelled).
   */
  function DecodeUtf8(bs: seq<byte>): (r: string)
    ensures |r| == |bs|
  {
    seq(|bs|, i requires 0 <= i < |bs| => if bs[i] < 128 then bs[i] as char else REPLACEMENT)
  }

  predicate IsAscii(s: string)
  {
    forall i :: 0 <= i < |s| ==> s[i] < 128 as char
  }

  /** The UTF-8 bytes of an ASCII string (`Buffer.write`, `Buffer.from`). */
  function AsciiBytes(s: string): (r: seq<byte>)
    requires IsAscii(s)
    ensures |r| == |s|
  {
    seq(|s|, i requires 0 <= i < |s| => s[i] as int)
  }

  lemma DecodeAsciiBytes(s: string)
    requires IsAscii(s)
    ensures DecodeUtf8(AsciiBytes(s)) == s
  {
  }
}
