/**
 * Writing a raster as a PNG with stored deflate blocks (utility/radar-viz/src/png_out.rs),
 * against a decoder written from RFC 1950, RFC 1951 and the PNG chunk layout. The CRC of a
 * chunk is a parameter.
 */
module Png {
  import opened Bytes
  import opened Wrappers
  import opened Records
  import opened LineDrawing

  // ---------------------------------------------------------------- Adler-32

  const MOD_ADLER: nat := 65521

  function Sum(data: seq<byte>): nat {
    if data == [] then 0 else Sum(data[..|data| - 1]) + data[|data| - 1]
  }

  /** `n * D1 + (n-1) * D2 + ... + 1 * Dn`, from octet `i` on. */
  function Weighted(data: seq<byte>, i: nat): nat
    requires i <= |data|
    decreases |data| - i
  {
    if i == |data| then 0 else (|data| - i) * data[i] + Weighted(data, i + 1)
  }

  /** The checksum of RFC 1950, section 8.2: two sums modulo 65521, the second one on top. */
  function Adler(data: seq<byte>): (r: nat)
    ensures r < 0x1_0000_0000
  {
    (|data| + Weighted(data, 0)) % MOD_ADLER * 0x1_0000 + (1 + Sum(data)) % MOD_ADLER
  }

  lemma {:induction false} SumCons(data: seq<byte>)
    requires data != []
    ensures Sum(data) == data[0] + Sum(data[1..])
  {
    if |data| > 1 {
      var front := data[..|data| - 1];
      SumCons(front);
      assert front[1..] == data[1..][..|data| - 2];
    } else {
      assert data[1..] == [] && data[..0] == [];
    }
  }

  /** One more octet makes every weight one more. */
  lemma {:induction false} WeightedSnoc(front: seq<byte>, d: byte, i: nat)
    requires i <= |front|
    ensures Weighted(front + [d], i) == Weighted(front, i) + Sum(front[i..]) + d
    decreases |front| - i
  {
    var all := front + [d];
    if i == |front| {
      assert all[i] == d && Weighted(all, i + 1) == 0;
    } else {
      WeightedSnoc(front, d, i + 1);
      SumCons(front[i..]);
      assert front[i..][1..] == front[i + 1..] && all[i] == front[i];
      assert (|all| - i) * front[i] == (|front| - i) * front[i] + front[i];
    }
  }

  lemma ModAdd(x: nat, y: nat)
    ensures (x % MOD_ADLER + y) % MOD_ADLER == (x + y) % MOD_ADLER
    ensures (y + x % MOD_ADLER) % MOD_ADLER == (y + x) % MOD_ADLER
  {
  }

  method Adler32(data: seq<byte>) returns (r: nat)
    ensures r == Adler(data)
  {
    hide Weighted, Sum;
    var a, b := 1, 0;
    NothingSummed();
    for i := 0 to |data|
      invariant a == (1 + Sum(data[..i])) % MOD_ADLER
      invariant b == (i + Weighted(data[..i], 0)) % MOD_ADLER
    {
      OneMoreOctet(data, i);
      a := (a + data[i]) % MOD_ADLER;
      b := (b + a) % MOD_ADLER;
    }
    assert data[..|data|] == data;
    r := b * 0x1_0000 + a;
  }

  lemma NothingSummed()
    ensures Weighted([], 0) == 0 && Sum([]) == 0
  {
  }

  /** Both sums with one more octet, modulo 65521. */
  lemma OneMoreOctet(data: seq<byte>, i: nat)
    requires i < |data|
    ensures var a, b := (1 + Sum(data[..i])) % MOD_ADLER, (i + Weighted(data[..i], 0)) % MOD_ADLER;
            var a' := (a + data[i]) % MOD_ADLER;
            && a' == (1 + Sum(data[..i + 1])) % MOD_ADLER
            && (b + a') % MOD_ADLER == (i + 1 + Weighted(data[..i + 1], 0)) % MOD_ADLER
  {
    hide Weighted;
    var front, d := data[..i], data[i];
    assert data[..i + 1] == front + [d] && data[..i + 1][..i] == front && front[0..] == front;
    WeightedSnoc(front, d, 0);
    var a, b := 1 + Sum(front), i + Weighted(front, 0);
    ModAdd(a, d);
    ModAdd(a + d, b % MOD_ADLER);
    ModAdd(b, a + d);
  }

  // ---------------------------------------------------------------- stored blocks

  const MAX_BLOCK: nat := 65535

  datatype Stored = Stored(final: bool, data: seq<byte>)

  /** How the data is cut into blocks. */
  function Split(data: seq<byte>): seq<Stored>
    decreases |data|
  {
    if |data| <= MAX_BLOCK then [Stored(true, data)]
    else [Stored(false, data[..MAX_BLOCK])] + Split(data[MAX_BLOCK..])
  }

  function BlockOctets(b: Stored): seq<byte>
    requires |b.data| <= MAX_BLOCK
  {
    [if b.final then 1 else 0] + LittleEndian(|b.data|, 2) + LittleEndian(MAX_BLOCK - |b.data|, 2) + b.data
  }

  predicate Small(blocks: seq<Stored>) {
    forall i :: 0 <= i < |blocks| ==> |blocks[i].data| <= MAX_BLOCK
  }

  function BlocksOctets(blocks: seq<Stored>): seq<byte>
    requires Small(blocks)
  {
    if blocks == [] then [] else BlockOctets(blocks[0]) + BlocksOctets(blocks[1..])
  }

  function Joined(blocks: seq<Stored>): seq<byte> {
    if blocks == [] then [] else blocks[0].data + Joined(blocks[1..])
  }

  /**
   * The blocks hold the data in order, none is over the format's limit, only the last is
   * final and only the last can be short of the limit.
   */
  lemma {:induction false} SplitIsRight(data: seq<byte>)
    ensures var blocks := Split(data);
            && Small(blocks) && Joined(blocks) == data
            && (forall i :: 0 <= i < |blocks| ==> (blocks[i].final <==> i == |blocks| - 1))
            && (forall i :: 0 <= i < |blocks| - 1 ==> |blocks[i].data| == MAX_BLOCK)
            && |blocks| > 0 && (|blocks| - 1) * MAX_BLOCK <= |data|
            && (|data| <= |blocks| * MAX_BLOCK && (data != [] ==> (|blocks| - 1) * MAX_BLOCK < |data|))
    decreases |data|
  {
    if |data| <= MAX_BLOCK {
      assert Joined([Stored(true, data)]) == data + Joined([]);
    } else {
      var rest := data[MAX_BLOCK..];
      SplitIsRight(rest);
      var blocks := Split(data);
      assert blocks[1..] == Split(rest);
      assert data == data[..MAX_BLOCK] + rest;
      forall i | 0 < i < |blocks|
        ensures blocks[i] == Split(rest)[i - 1]
      {
      }
    }
  }

  function Zlib(data: seq<byte>): seq<byte> {
    SplitIsRight(data);
    [0x78, 0x01] + BlocksOctets(Split(data)) + BigEndian32(Adler(data))
  }

  function BigEndian32(n: nat): (r: seq<byte>)
    ensures |r| == 4
  {
    [n / 0x100_0000 % 256, n / 0x1_0000 % 256, n / 256 % 256, n % 256]
  }

  function FromBigEndian32(bs: seq<byte>): nat
    requires |bs| == 4
  {
    bs[0] as int * 0x100_0000 + bs[1] as int * 0x1_0000 + bs[2] as int * 256 + bs[3] as int
  }

  lemma BigEndianReads(n: nat)
    requires n < 0x1_0000_0000
    ensures FromBigEndian32(BigEndian32(n)) == n
  {
    var a, b := n / 256, n / 0x1_0000;
    assert b == a / 256 && n / 0x100_0000 == b / 256 && b / 256 < 256;
  }

  lemma BlocksOctetsOf(data: seq<byte>)
    ensures Small(Split(data)) && Small(Split(data)[1..])
    ensures |data| <= MAX_BLOCK ==> BlocksOctets(Split(data)) == BlockOctets(Stored(true, data))
    ensures |data| > MAX_BLOCK ==>
              && Small(Split(data[MAX_BLOCK..]))
              && BlocksOctets(Split(data)) ==
                   BlockOctets(Stored(false, data[..MAX_BLOCK])) + BlocksOctets(Split(data[MAX_BLOCK..]))
  {
    hide BlockOctets;
    SplitIsRight(data);
    if |data| > MAX_BLOCK {
      SplitIsRight(data[MAX_BLOCK..]);
      assert Split(data)[1..] == Split(data[MAX_BLOCK..]);
    } else {
      assert Split(data)[1..] == [];
      assert BlockOctets(Stored(true, data)) + [] == BlockOctets(Stored(true, data));
    }
  }

  method ZlibStored(data: seq<byte>) returns (out: seq<byte>)
    ensures out == Zlib(data)
  {
    hide Split, BlocksOctets, Adler, LittleEndian;
    out := [0x78, 0x01];
    var offset := 0;
    BlocksOctetsOf(data);
    assert data[0..] == data;
    while true
      invariant offset <= |data|
      invariant Small(Split(data[offset..])) && Small(Split(data))
      invariant out + BlocksOctets(Split(data[offset..])) == [0x78, 0x01] + BlocksOctets(Split(data))
      decreases |data| - offset
    {
      ghost var before, rest := out, data[offset..];
      BlocksOctetsOf(rest);
      var end := Min(offset + MAX_BLOCK, |data|);
      var isFinal := end == |data|;
      var len := end - offset;
      var block := data[offset..end];
      assert block == if isFinal then rest else rest[..MAX_BLOCK];
      out := out + [if isFinal then 1 else 0];
      out := out + LittleEndian(len, 2);
      out := out + LittleEndian(MAX_BLOCK - len, 2);
      out := out + block;
      assert out == before + BlockOctets(Stored(isFinal, block));
      if isFinal {
        break;
      }
      assert rest[MAX_BLOCK..] == data[end..];
      Assoc(before, BlockOctets(Stored(false, block)), BlocksOctets(Split(data[end..])));
      offset := end;
    }
    var sum := Adler32(data);
    out := out + BigEndian32(sum);
  }

  // ---------------------------------------------------------------- a decoder

  datatype Read<T> = Read(value: T, rest: seq<byte>)

  /** One stored block: RFC 1951, section 3.2.4. */
  function ReadBlock(bs: seq<byte>): (r: Option<Read<Stored>>)
    ensures r.Some? ==> |r.value.rest| < |bs|
  {
    if |bs| < 5 || bs[0] / 2 % 4 != 0 then None
    else
      var len := FromLittleEndian(bs[1..3]);
      if len + FromLittleEndian(bs[3..5]) != 65535 || 5 + len > |bs| then None
      else Some(Read(Stored(bs[0] % 2 == 1, bs[5..5 + len]), bs[5 + len..]))
  }

  /** Blocks up to the final one. */
  function ReadBlocks(bs: seq<byte>): Option<Read<seq<Stored>>>
    decreases |bs|
  {
    var first := ReadBlock(bs);
    if first.None? then None
    else if first.value.value.final then Some(Read([first.value.value], first.value.rest))
    else
      var more := ReadBlocks(first.value.rest);
      if more.None? then None else Some(Read([first.value.value] + more.value.value, more.value.rest))
  }

  /** The stream of RFC 1950, section 2.2, holding stored blocks only. */
  function Unzip(bs: seq<byte>): Option<seq<byte>> {
    if |bs| < 2 || bs[0] % 16 != 8 || bs[0] / 16 > 7 || (bs[0] as int * 256 + bs[1] as int) % 31 != 0
      || bs[1] / 32 % 2 != 0
    then None
    else
      var blocks := ReadBlocks(bs[2..]);
      if blocks.None? || |blocks.value.rest| != 4 then None
      else
        var data := Joined(blocks.value.value);
        if FromBigEndian32(blocks.value.rest) != Adler(data) then None else Some(data)
  }

  lemma BlockReadsBack(b: Stored, rest: seq<byte>)
    requires |b.data| <= MAX_BLOCK
    ensures ReadBlock(BlockOctets(b) + rest) == Some(Read(b, rest))
  {
    hide LittleEndian, FromLittleEndian;
    Powers();
    LittleEndianReads(|b.data|, 2);
    LittleEndianReads(MAX_BLOCK - |b.data|, 2);
    var bs := BlockOctets(b) + rest;
    assert bs[1..3] == LittleEndian(|b.data|, 2) && bs[3..5] == LittleEndian(MAX_BLOCK - |b.data|, 2);
    assert bs[5..5 + |b.data|] == b.data && bs[5 + |b.data|..] == rest;
  }

  lemma {:induction false} BlocksReadBack(data: seq<byte>, rest: seq<byte>)
    ensures Small(Split(data)) && ReadBlocks(BlocksOctets(Split(data)) + rest) == Some(Read(Split(data), rest))
    decreases |data|
  {
    BlocksOctetsOf(data);
    hide BlockOctets, ReadBlock, BlocksOctets;
    if |data| <= MAX_BLOCK {
      BlockReadsBack(Stored(true, data), rest);
    } else {
      var first, tail := Stored(false, data[..MAX_BLOCK]), BlocksOctets(Split(data[MAX_BLOCK..]));
      BlocksReadBack(data[MAX_BLOCK..], rest);
      BlockReadsBack(first, tail + rest);
      Assoc(BlockOctets(first), tail, rest);
    }
  }

  /** Whatever the data, the stream decodes to exactly that data, checksum and all. */
  lemma UnzipZlib(data: seq<byte>)
    ensures Unzip(Zlib(data)) == Some(data)
  {
    hide Split, BlocksOctets, ReadBlocks, Joined, Adler, FromBigEndian32, BigEndian32;
    SplitIsRight(data);
    var blocks, sum := BlocksOctets(Split(data)), BigEndian32(Adler(data));
    BlocksReadBack(data, sum);
    BigEndianReads(Adler(data));
    assert Zlib(data)[2..] == blocks + sum;
  }

  lemma {:induction false} OctetCount(blocks: seq<Stored>)
    requires Small(blocks)
    ensures |BlocksOctets(blocks)| == |Joined(blocks)| + 5 * |blocks|
  {
    hide LittleEndian;
    if blocks != [] {
      OctetCount(blocks[1..]);
    }
  }

  /** Five octets for every block begun, and six around them. */
  lemma ZlibLength(data: seq<byte>)
    ensures |Zlib(data)| == 2 + 5 * |Split(data)| + |data| + 4
    ensures |Split(data)| == if data == [] then 1 else (|data| + MAX_BLOCK - 1) / MAX_BLOCK
  {
    hide Split, BlocksOctets, Adler;
    SplitIsRight(data);
    OctetCount(Split(data));
  }

  // ---------------------------------------------------------------- the image

  const SIGNATURE: seq<byte> := [0x89, 80, 78, 71, 13, 10, 26, 10]
  const RGBA8: seq<byte> := [8, 6, 0, 0, 0]
  const U32_END: nat := 0x1_0000_0000

  type Word = n: nat | n < 0x1_0000_0000
  type Crc = seq<byte> -> Word

  function Chunk(kind: seq<byte>, data: seq<byte>, crc: Crc): seq<byte> {
    BigEndian32(|data| % U32_END) + kind + data + BigEndian32(crc(kind + data))
  }

  /** Each row of the image after an octet 0: no filter. */
  function Scanlines(px: seq<byte>, rowBytes: nat, rows: nat): seq<byte>
    requires |px| == rows * rowBytes
    decreases rows
  {
    if rows == 0 then []
    else
      RowsLeft(rows, rowBytes);
      [0] + px[..rowBytes] + Scanlines(px[rowBytes..], rowBytes, rows - 1)
  }

  lemma RowsLeft(rows: nat, rowBytes: nat)
    requires rows > 0
    ensures rowBytes <= rows * rowBytes && rows * rowBytes - rowBytes == (rows - 1) * rowBytes
  {
    MulMono(1, rows, rowBytes);
  }

  function Encoded(width: nat, height: nat, px: seq<byte>, crc: Crc): seq<byte>
    requires |px| == height * (width * 4)
  {
    SIGNATURE
    + Chunk(Ascii("IHDR"), BigEndian32(width) + BigEndian32(height) + RGBA8, crc)
    + Chunk(Ascii("IDAT"), Zlib(Scanlines(px, width * 4, height)), crc)
    + Chunk(Ascii("IEND"), [], crc)
  }

  lemma ImageSize(width: nat, height: nat)
    ensures width * height * 4 == height * (width * 4)
  {
  }

  method WriteScanlines(raster: Raster) returns (data: seq<byte>)
    requires raster.Valid()
    ensures |raster.px[..]| == raster.height * (raster.width * 4)
    ensures data == Scanlines(raster.px[..], raster.width * 4, raster.height)
  {
    hide Scanlines;
    var rowBytes := raster.width * 4;
    ImageSize(raster.width, raster.height);
    ghost var px := raster.px[..];
    data := [];
    assert px[0..] == px;
    for row := 0 to raster.height
      invariant row * rowBytes <= |px| && |px[row * rowBytes..]| == (raster.height - row) * rowBytes
      invariant data + Scanlines(px[row * rowBytes..], rowBytes, raster.height - row)
                == Scanlines(px, rowBytes, raster.height)
    {
      var start := row * rowBytes;
      ghost var rest := px[start..];
      RowsLeft(raster.height - row, rowBytes);
      ScanlinesStep(rest, rowBytes, raster.height - row);
      assert raster.px[start..start + rowBytes] == rest[..rowBytes];
      assert rest[rowBytes..] == px[start + rowBytes..] && start + rowBytes == (row + 1) * rowBytes;
      ghost var before := data;
      data := data + [0];
      data := data + raster.px[start..start + rowBytes];
      Assoc(before, [0] + rest[..rowBytes], Scanlines(rest[rowBytes..], rowBytes, raster.height - row - 1));
      assert data == before + ([0] + rest[..rowBytes]);
    }
    ScanlinesStep(px[raster.height * rowBytes..], rowBytes, 0);
    assert data + [] == data;
  }

  lemma ScanlinesStep(px: seq<byte>, rowBytes: nat, rows: nat)
    requires |px| == rows * rowBytes
    ensures rows == 0 ==> Scanlines(px, rowBytes, rows) == []
    ensures rows > 0 ==>
              && rowBytes <= |px| && |px[rowBytes..]| == (rows - 1) * rowBytes
              && Scanlines(px, rowBytes, rows) == [0] + px[..rowBytes] + Scanlines(px[rowBytes..], rowBytes, rows - 1)
  {
    if rows > 0 {
      RowsLeft(rows, rowBytes);
    }
  }

  method EncodePng(raster: Raster, crc: Crc) returns (out: seq<byte>)
    requires raster.Valid()
    ensures |raster.px[..]| == raster.height * (raster.width * 4)
    ensures out == Encoded(raster.width, raster.height, raster.px[..], crc)
  {
    hide Scanlines, Zlib, BigEndian32;
    var ihdr := BigEndian32(raster.width) + BigEndian32(raster.height);
    ihdr := ihdr + RGBA8;
    out := SIGNATURE;
    out := out + Chunk(Ascii("IHDR"), ihdr, crc);
    var rows := WriteScanlines(raster);
    var compressed := ZlibStored(rows);
    out := out + Chunk(Ascii("IDAT"), compressed, crc);
    out := out + Chunk(Ascii("IEND"), [], crc);
  }

  // ---------------------------------------------------------------- reading the image

  datatype ChunkRead = ChunkRead(kind: seq<byte>, data: seq<byte>)

  function ReadChunk(bs: seq<byte>, crc: Crc): Option<Read<ChunkRead>> {
    if |bs| < 12 then None
    else
      var len := FromBigEndian32(bs[..4]);
      if 12 + len > |bs| || FromBigEndian32(bs[8 + len..12 + len]) != crc(bs[4..8 + len]) then None
      else Some(Read(ChunkRead(bs[4..8], bs[8..8 + len]), bs[12 + len..]))
  }

  /** The pixels of rows none of which is filtered. */
  function Unfilter(data: seq<byte>, rowBytes: nat, rows: nat): Option<seq<byte>>
    decreases rows
  {
    if rows == 0 then if data == [] then Some([]) else None
    else if |data| < 1 + rowBytes || data[0] != 0 then None
    else
      var more := Unfilter(data[1 + rowBytes..], rowBytes, rows - 1);
      if more.None? then None else Some(data[1..1 + rowBytes] + more.value)
  }

  datatype Image = Image(width: nat, height: nat, px: seq<byte>)

  function Decoded(bs: seq<byte>, crc: Crc): Option<Image> {
    if |bs| < 8 || bs[..8] != SIGNATURE then None
    else
      var ihdr := ReadChunk(bs[8..], crc);
      if ihdr.None? || ihdr.value.value.kind != Ascii("IHDR") || |ihdr.value.value.data| != 13
         || ihdr.value.value.data[8..] != RGBA8 then None
      else
        var idat := ReadChunk(ihdr.value.rest, crc);
        if idat.None? || idat.value.value.kind != Ascii("IDAT") then None
        else
          var iend := ReadChunk(idat.value.rest, crc);
          var rows := Unzip(idat.value.value.data);
          if iend != Some(Read(ChunkRead(Ascii("IEND"), []), [])) || rows.None? then None
          else
            var width := FromBigEndian32(ihdr.value.value.data[..4]);
            var height := FromBigEndian32(ihdr.value.value.data[4..8]);
            var px := Unfilter(rows.value, width * 4, height);
            if px.None? then None else Some(Image(width, height, px.value))
  }

  lemma ChunkReadsBack(kind: seq<byte>, data: seq<byte>, rest: seq<byte>, crc: Crc)
    requires |kind| == 4 && |data| < U32_END
    ensures ReadChunk(Chunk(kind, data, crc) + rest, crc) == Some(Read(ChunkRead(kind, data), rest))
  {
    hide BigEndian32, FromBigEndian32;
    var bs, n, c := Chunk(kind, data, crc) + rest, |data|, BigEndian32(crc(kind + data));
    BigEndianReads(n);
    BigEndianReads(crc(kind + data));
    assert bs[..4] == BigEndian32(n);
    assert bs[4..8] == kind && bs[8..8 + n] == data;
    assert bs[4..8 + n] == kind + data;
    assert bs[8 + n..12 + n] == c && bs[12 + n..] == rest;
  }

  lemma {:induction false} UnfilterScanlines(px: seq<byte>, rowBytes: nat, rows: nat)
    requires |px| == rows * rowBytes
    ensures Unfilter(Scanlines(px, rowBytes, rows), rowBytes, rows) == Some(px)
    decreases rows
  {
    hide Scanlines;
    ScanlinesStep(px, rowBytes, rows);
    if rows > 0 {
      var data, tail := Scanlines(px, rowBytes, rows), Scanlines(px[rowBytes..], rowBytes, rows - 1);
      UnfilterScanlines(px[rowBytes..], rowBytes, rows - 1);
      assert data[0] == 0 && data[1..1 + rowBytes] == px[..rowBytes] && data[1 + rowBytes..] == tail;
      assert px[..rowBytes] + px[rowBytes..] == px;
    }
  }

  lemma HeaderFields(width: nat, height: nat)
    requires width < U32_END && height < U32_END
    ensures var h := BigEndian32(width) + BigEndian32(height) + RGBA8;
            && |h| == 13 && h[8..] == RGBA8
            && FromBigEndian32(h[..4]) == width && FromBigEndian32(h[4..8]) == height
  {
    hide BigEndian32, FromBigEndian32;
    BigEndianReads(width);
    BigEndianReads(height);
    var h := BigEndian32(width) + BigEndian32(height) + RGBA8;
    assert h[..4] == BigEndian32(width) && h[4..8] == BigEndian32(height) && h[8..] == RGBA8;
  }

  /** The file decodes to the image it was written from, while its data chunk's length fits its field. */
  lemma PngReadsBack(width: nat, height: nat, px: seq<byte>, crc: Crc)
    requires |px| == height * (width * 4) && width < U32_END && height < U32_END
    ensures |Zlib(Scanlines(px, width * 4, height))| < U32_END ==>
              Decoded(Encoded(width, height, px, crc), crc) == Some(Image(width, height, px))
  {
    hide Scanlines, Zlib, Unzip, Chunk, ReadChunk, BigEndian32, FromBigEndian32, Unfilter;
    if |Zlib(Scanlines(px, width * 4, height))| < U32_END {
      var header := BigEndian32(width) + BigEndian32(height) + RGBA8;
      var rows := Scanlines(px, width * 4, height);
      var data := Zlib(rows);
      HeaderFields(width, height);
      var a, b, c := Chunk(Ascii("IHDR"), header, crc), Chunk(Ascii("IDAT"), data, crc), Chunk(Ascii("IEND"), [], crc);
      ChunkReadsBack(Ascii("IHDR"), header, b + c, crc);
      ChunkReadsBack(Ascii("IDAT"), data, c, crc);
      ChunkReadsBack(Ascii("IEND"), [], [], crc);
      assert c + [] == c;
      var bs := Encoded(width, height, px, crc);
      assert bs[..8] == SIGNATURE && bs[8..] == a + (b + c);
      UnzipZlib(rows);
      UnfilterScanlines(px, width * 4, height);
    }
  }
}
