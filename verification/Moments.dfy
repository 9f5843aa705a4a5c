/**
 * One moment of a radial (crates/nexrad-decoder/src/parse/product.rs): read field by field
 * through a cursor. How four octets are a floating-point number is a parameter.
 */
module Moments {
  import opened Bytes
  import opened Wrappers
  import opened Radar
  import opened Grid
  import opened MessageStream

  type Float = seq<byte> -> real

  function KindOf(id: seq<byte>): Option<ProductKind> {
    if id == Ascii("DREF") then Some(Ref)
    else if id == Ascii("DVEL") then Some(Vel)
    else if id == Ascii("DSW ") then Some(SpectrumWidth)
    else if id == Ascii("DZDR") then Some(Zdr)
    else if id == Ascii("DPHI") then Some(Phi)
    else if id == Ascii("DRHO") then Some(Rho)
    else if id == Ascii("DCFP") then Some(Cfp)
    else None
  }

  const PREAMBLE: nat := 4
  const GATES_AT: nat := 28

  datatype Header = Header(
    gateCount: nat, firstGateM: nat, gateWidthM: nat, wordSize: nat, scale: seq<byte>, offset: seq<byte>)

  /** The fields between the block id and the gates. */
  function HeaderAt(d: seq<byte>, p: nat): Header
    requires p + GATES_AT - PREAMBLE <= |d|
  {
    Header(U16(d[p + 4], d[p + 5]), U16(d[p + 6], d[p + 7]), U16(d[p + 8], d[p + 9]), d[p + 15],
           d[p + 16..p + 20], d[p + 20..p + 24])
  }

  /** The moment with this header, its gates at `at`. */
  function WithGates(body: seq<byte>, at: nat, kind: ProductKind, h: Header, float: Float)
    : Option<(ProductKind, ProductData)>
  {
    var data := Slice(body, at, h.gateCount * (h.wordSize / 8));
    if (h.wordSize != 8 && h.wordSize != 16) || data.None? then None
    else
      Some((kind,
            ProductData(h.gateCount, h.firstGateM, h.gateWidthM, h.wordSize, float(h.scale), float(h.offset),
                        data.value)))
  }

  /** The moment in the block at `ptr`; there is no block at 0. */
  function ProductAt(body: seq<byte>, ptr: nat, float: Float): Option<(ProductKind, ProductData)> {
    if ptr == 0 || ptr + GATES_AT > |body| || KindOf(body[ptr..ptr + PREAMBLE]).None? then None
    else
      var kind := KindOf(body[ptr..ptr + PREAMBLE]).value;
      WithGates(body, ptr + GATES_AT, kind, HeaderAt(body, ptr + PREAMBLE), float)
  }

  /** Every moment has as many gates as it says, each of one whole word; so every gate can be read and no more. */
  lemma ParsedMomentIsDecoded(body: seq<byte>, ptr: nat, float: Float, i: nat)
    requires ProductAt(body, ptr, float).Some?
    ensures var d := ProductAt(body, ptr, float).value.1;
            Decoded(d) && (RawGate(d, i).Some? <==> i < d.gateCount)
  {
    hide KindOf;
    var d := ProductAt(body, ptr, float).value.1;
    if d.wordSize == 8 {
      assert |d.data| == d.gateCount;
    } else {
      assert |d.data| == 2 * d.gateCount;
    }
  }

  /** A cursor on the block at `ptr`, past the block id. */
  method ForBlock(body: seq<byte>, ptr: nat) returns (c: Option<Cursor>, blockId: seq<byte>)
    ensures c.Some? <==> ptr != 0 && ptr + PREAMBLE <= |body|
    ensures c.Some? ==>
              && fresh(c.value) && c.value.data == body && c.value.pos == ptr + PREAMBLE
              && blockId == body[ptr..ptr + PREAMBLE]
  {
    if ptr == 0 {
      return None, [];
    }
    c := Cursor.At(body, ptr);
    if c.None? {
      return None, [];
    }
    var id := c.value.ReadBytes(PREAMBLE);
    if id.None? {
      return None, [];
    }
    blockId := id.value;
  }

  method ParseProduct(body: seq<byte>, ptr: nat, float: Float) returns (r: Option<(ProductKind, ProductData)>)
    ensures r == ProductAt(body, ptr, float)
  {
    hide KindOf, HeaderAt;
    var block, blockId := ForBlock(body, ptr);
    if block.None? {
      return None;
    }
    var c := block.value;
    var kind := KindOf(blockId);
    if kind.None? {
      return None;
    }
    var header := ReadHeader(c);
    if header.None? {
      return None;
    }
    var h := header.value;
    if h.wordSize != 8 && h.wordSize != 16 {
      return None;
    }
    var raw := c.ReadBytes(h.gateCount * (h.wordSize / 8));
    if raw.None? {
      return None;
    }
    r := Some((kind.value,
               ProductData(h.gateCount, h.firstGateM, h.gateWidthM, h.wordSize, float(h.scale), float(h.offset),
                           raw.value)));
  }

  /** The 24 octets after the block id. */
  method ReadHeader(c: Cursor) returns (h: Option<Header>)
    modifies c
    ensures old(c.pos) + 24 > |c.data| ==> h.None?
    ensures old(c.pos) + 24 <= |c.data| ==> c.pos == old(c.pos) + 24 && h == Some(HeaderAt(c.data, old(c.pos)))
  {
    var blockSize := c.ReadU16();
    if blockSize.None? {
      return None;
    }
    var version := c.ReadU16();
    if version.None? {
      return None;
    }
    var gateCount := c.ReadU16();
    if gateCount.None? {
      return None;
    }
    var firstGateM := c.ReadU16();
    if firstGateM.None? {
      return None;
    }
    var gateWidthM := c.ReadU16();
    if gateWidthM.None? {
      return None;
    }
    var tover := c.ReadU16();
    if tover.None? {
      return None;
    }
    var snrThreshold := c.ReadU16();
    if snrThreshold.None? {
      return None;
    }
    var spare := c.ReadU8();
    if spare.None? {
      return None;
    }
    var wordSize := c.ReadU8();
    if wordSize.None? {
      return None;
    }
    var scale := c.ReadBytes(4);
    if scale.None? {
      return None;
    }
    var offset := c.ReadBytes(4);
    if offset.None? {
      return None;
    }
    h := Some(Header(gateCount.value, firstGateM.value, gateWidthM.value, wordSize.value, scale.value, offset.value));
  }

  // ---------------------------------------------------------------- laid-out moments

  function BigEndian(n: nat): (r: seq<byte>)
    requires n < 0x1_0000
    ensures |r| == 2 && U16(r[0], r[1]) == n
  {
    [n / 256, n % 256]
  }

  /** A block as the format lays it out; `filler` are the fields nobody reads. */
  function Block(id: seq<byte>, filler: seq<byte>, gateCount: nat, firstGateM: nat, gateWidthM: nat, wordSize: byte,
                 scale: seq<byte>, offset: seq<byte>, data: seq<byte>): seq<byte>
    requires |filler| == 9 && gateCount < 0x1_0000 && firstGateM < 0x1_0000 && gateWidthM < 0x1_0000
  {
    id + filler[..4] + BigEndian(gateCount) + BigEndian(firstGateM) + BigEndian(gateWidthM) + filler[4..] + [wordSize]
    + scale + offset + data
  }

  /** A moment laid out in a body, with anything before and after it, is read back as it was. */
  lemma MomentReadsBack(before: seq<byte>, after: seq<byte>, id: seq<byte>, filler: seq<byte>, d: ProductData,
                        scale: seq<byte>, offset: seq<byte>, float: Float)
    requires before != [] && |id| == 4 && KindOf(id).Some? && |filler| == 9 && |scale| == |offset| == 4
    requires d.gateCount < 0x1_0000 && d.firstGateM < 0x1_0000 && d.gateWidthM < 0x1_0000 && Decoded(d)
    requires d.scale == float(scale) && d.offset == float(offset)
    ensures ProductAt(before
                      + Block(id, filler, d.gateCount, d.firstGateM, d.gateWidthM, d.wordSize, scale, offset, d.data)
                      + after, |before|, float)
            == Some((KindOf(id).value, d))
  {
    hide KindOf, Block, BigEndian;
    var block := Block(id, filler, d.gateCount, d.firstGateM, d.gateWidthM, d.wordSize, scale, offset, d.data);
    var body, p := before + block + after, |before|;
    BlockFields(id, filler, d.gateCount, d.firstGateM, d.gateWidthM, d.wordSize, scale, offset, d.data);
    Embedded(before, block, after, 0, 4);
    Embedded(before, block, after, 20, 24);
    Embedded(before, block, after, 24, 28);
    Embedded(before, block, after, 28, |block|);
    EmbeddedOctets(before, block, after);
  }

  /** The octets of the fields that are numbers. */
  lemma EmbeddedOctets(before: seq<byte>, block: seq<byte>, after: seq<byte>)
    requires 28 <= |block|
    ensures var body, p := before + block + after, |before|;
            && body[p + 8] == block[8] && body[p + 9] == block[9] && body[p + 10] == block[10]
            && body[p + 11] == block[11] && body[p + 12] == block[12] && body[p + 13] == block[13]
            && body[p + 19] == block[19]
  {
  }

  lemma Embedded(before: seq<byte>, block: seq<byte>, after: seq<byte>, lo: nat, hi: nat)
    requires lo <= hi <= |block|
    ensures (before + block + after)[|before| + lo..|before| + hi] == block[lo..hi]
  {
    var body := before + block + after;
    forall i | 0 <= i < hi - lo
      ensures body[|before| + lo..|before| + hi][i] == block[lo..hi][i]
    {
      assert body[|before| + (lo + i)] == block[lo + i];
    }
  }

  lemma BlockFields(id: seq<byte>, filler: seq<byte>, gateCount: nat, firstGateM: nat, gateWidthM: nat, wordSize: byte,
                    scale: seq<byte>, offset: seq<byte>, data: seq<byte>)
    requires |id| == 4 && |filler| == 9 && |scale| == |offset| == 4
    requires gateCount < 0x1_0000 && firstGateM < 0x1_0000 && gateWidthM < 0x1_0000
    ensures var b := Block(id, filler, gateCount, firstGateM, gateWidthM, wordSize, scale, offset, data);
            && |b| == 28 + |data| && b[..4] == b[0..4] == id
            && U16(b[8], b[9]) == gateCount && U16(b[10], b[11]) == firstGateM && U16(b[12], b[13]) == gateWidthM
            && b[19] == wordSize && b[20..24] == scale && b[24..28] == offset && b[28..|b|] == data
  {
  }

  /** The seven block names, and no other, are moments. */
  lemma KindIff(id: seq<byte>)
    ensures KindOf(id) == Some(Ref) <==> id == [68, 82, 69, 70]
    ensures KindOf(id) == Some(Vel) <==> id == [68, 86, 69, 76]
    ensures KindOf(id) == Some(SpectrumWidth) <==> id == [68, 83, 87, 32]
    ensures KindOf(id) == Some(Zdr) <==> id == [68, 90, 68, 82]
    ensures KindOf(id) == Some(Phi) <==> id == [68, 80, 72, 73]
    ensures KindOf(id) == Some(Rho) <==> id == [68, 82, 72, 79]
    ensures KindOf(id) == Some(Cfp) <==> id == [68, 67, 70, 80]
  {
    assert Ascii("DREF") == [68, 82, 69, 70] && Ascii("DVEL") == [68, 86, 69, 76];
    assert Ascii("DSW ") == [68, 83, 87, 32] && Ascii("DZDR") == [68, 90, 68, 82];
    assert Ascii("DPHI") == [68, 80, 72, 73] && Ascii("DRHO") == [68, 82, 72, 79];
    assert Ascii("DCFP") == [68, 67, 70, 80];
  }
}
