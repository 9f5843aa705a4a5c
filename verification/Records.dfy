/**
 * Little-endian records of fixed-width fields: what `struct.pack` with "<" writes and
 * `from_le_bytes` reads.
 */
module Records {
  import opened Bytes
  import opened Wrappers

  // ---------------------------------------------------------------- numbers

  /** The low `width` octets of `n`, least significant first. */
  function LittleEndian(n: nat, width: nat): (r: seq<byte>)
    ensures |r| == width
  {
    if width == 0 then [] else [n % 256] + LittleEndian(n / 256, width - 1)
  }

  function FromLittleEndian(bs: seq<byte>): nat {
    if bs == [] then 0 else bs[0] + 256 * FromLittleEndian(bs[1..])
  }

  lemma {:induction false} LittleEndianReads(n: nat, width: nat)
    requires n < Pow(256, width)
    ensures FromLittleEndian(LittleEndian(n, width)) == n
  {
    if width > 0 {
      DivBound(n, 256, Pow(256, width - 1));
      LittleEndianReads(n / 256, width - 1);
      assert ([n % 256] + LittleEndian(n / 256, width - 1))[1..] == LittleEndian(n / 256, width - 1);
    }
  }

  lemma {:induction false} LittleEndianBound(bs: seq<byte>)
    ensures FromLittleEndian(bs) < Pow(256, |bs|)
  {
    if bs != [] {
      LittleEndianBound(bs[1..]);
    }
  }

  lemma Powers()
    ensures Pow(256, 1) == 256 && Pow(256, 2) == 0x1_0000 && Pow(256, 4) == 0x1_0000_0000
  {
    assert Pow(256, 3) == 256 * Pow(256, 2);
  }

  // ---------------------------------------------------------------- fields

  datatype Field = U16 | U32 | I32 {
    function Width(): nat {
      if U16? then 2 else 4
    }

    predicate Fits(v: int) {
      match this
      case U16 => 0 <= v < 0x1_0000
      case U32 => 0 <= v < 0x1_0000_0000
      case I32 => -0x8000_0000 <= v < 0x8000_0000
    }
  }

  function Encode(f: Field, v: int): (r: seq<byte>)
    requires f.Fits(v)
    ensures |r| == f.Width()
  {
    LittleEndian(if v < 0 then v + 0x1_0000_0000 else v, f.Width())
  }

  function Decode(f: Field, bs: seq<byte>): (v: int)
    requires |bs| == f.Width()
    ensures f.Fits(v)
  {
    Powers();
    LittleEndianBound(bs);
    var n := FromLittleEndian(bs);
    if f.I32? && n >= 0x8000_0000 then n - 0x1_0000_0000 else n
  }

  lemma DecodeEncode(f: Field, v: int)
    requires f.Fits(v)
    ensures Decode(f, Encode(f, v)) == v
  {
    Powers();
    LittleEndianReads(if v < 0 then v + 0x1_0000_0000 else v, f.Width());
  }

  /** `read_u16`, `read_u32` and `read_i32`: nothing past the end. */
  function Read(f: Field, bs: seq<byte>, off: nat): (r: Option<int>)
    ensures r.Some? <==> off + f.Width() <= |bs|
    ensures r.Some? ==> f.Fits(r.value)
  {
    if off + f.Width() <= |bs| then Some(Decode(f, bs[off..off + f.Width()])) else None
  }

  // ---------------------------------------------------------------- records

  type Format = seq<Field>

  function Size(fmt: Format): nat {
    if fmt == [] then 0 else Size(fmt[..|fmt| - 1]) + fmt[|fmt| - 1].Width()
  }

  /** One record, if every value is in its field's range. */
  function Pack(fmt: Format, row: seq<int>): (r: Option<seq<byte>>)
    requires |row| == |fmt|
    ensures r.Some? ==> |r.value| == Size(fmt)
  {
    if fmt == [] then Some([])
    else
      var n := |fmt| - 1;
      var front := Pack(fmt[..n], row[..n]);
      if front.Some? && fmt[n].Fits(row[n]) then Some(front.value + Encode(fmt[n], row[n])) else None
  }

  /** Where field `k` begins in a record. */
  function Offset(fmt: Format, k: nat): nat
    requires k <= |fmt|
  {
    Size(fmt[..k])
  }

  lemma {:induction false} PackedField(fmt: Format, row: seq<int>, k: nat)
    requires |row| == |fmt| && k < |fmt| && Pack(fmt, row).Some?
    ensures fmt[k].Fits(row[k])
    ensures Offset(fmt, k) + fmt[k].Width() <= Size(fmt)
    ensures Pack(fmt, row).value[Offset(fmt, k)..Offset(fmt, k) + fmt[k].Width()] == Encode(fmt[k], row[k])
  {
    hide Encode;
    var n := |fmt| - 1;
    if k < n {
      assert fmt[..n][..k] == fmt[..k];
      PackedField(fmt[..n], row[..n], k);
    }
  }

  /** Every record has the format's number of values. */
  predicate Shaped(fmt: Format, rows: seq<seq<int>>) {
    forall i :: 0 <= i < |rows| ==> |rows[i]| == |fmt|
  }

  function PackRows(fmt: Format, rows: seq<seq<int>>): (r: Option<seq<byte>>)
    requires Shaped(fmt, rows)
  {
    if rows == [] then Some([])
    else
      var n := |rows| - 1;
      var front := PackRows(fmt, rows[..n]);
      var last := Pack(fmt, rows[n]);
      if front.Some? && last.Some? then Some(front.value + last.value) else None
  }

  lemma PackRowsSnoc(fmt: Format, rows: seq<seq<int>>, row: seq<int>)
    requires Shaped(fmt, rows) && |row| == |fmt|
    ensures Shaped(fmt, rows + [row])
    ensures PackRows(fmt, rows + [row]) ==
              if PackRows(fmt, rows).Some? && Pack(fmt, row).Some?
              then Some(PackRows(fmt, rows).value + Pack(fmt, row).value) else None
  {
    hide Pack;
    assert (rows + [row])[..|rows|] == rows;
  }

  lemma {:induction false} PackRowsPrefix(fmt: Format, rows: seq<seq<int>>, k: nat)
    requires Shaped(fmt, rows) && k <= |rows| && PackRows(fmt, rows).Some?
    ensures PackRows(fmt, rows[..k]).Some?
    decreases |rows|
  {
    hide Pack;
    if k < |rows| {
      assert rows[..|rows| - 1][..k] == rows[..k];
      PackRowsPrefix(fmt, rows[..|rows| - 1], k);
    } else {
      assert rows[..k] == rows;
    }
  }

  lemma {:induction false} PackedRow(fmt: Format, rows: seq<seq<int>>, i: nat)
    requires Shaped(fmt, rows) && i < |rows| && PackRows(fmt, rows).Some?
    ensures Pack(fmt, rows[i]).Some?
    ensures i * Size(fmt) + Size(fmt) <= |PackRows(fmt, rows).value|
    ensures PackRows(fmt, rows).value[i * Size(fmt)..i * Size(fmt) + Size(fmt)] == Pack(fmt, rows[i]).value
  {
    hide Pack, Size;
    var n := |rows| - 1;
    PackedLength(fmt, rows[..n]);
    if i < n {
      PackedRow(fmt, rows[..n], i);
    }
  }

  lemma {:induction false} PackedLength(fmt: Format, rows: seq<seq<int>>)
    requires Shaped(fmt, rows) && PackRows(fmt, rows).Some?
    ensures |PackRows(fmt, rows).value| == |rows| * Size(fmt)
  {
    hide Pack, Size;
    if rows != [] {
      PackedLength(fmt, rows[..|rows| - 1]);
      assert |rows| * Size(fmt) == (|rows| - 1) * Size(fmt) + Size(fmt);
    }
  }

  /** Any field of any record, read where the records begin, gives the value written. */
  lemma FieldReadsBack(fmt: Format, rows: seq<seq<int>>, i: nat, k: nat, bs: seq<byte>, at: nat)
    requires Shaped(fmt, rows) && i < |rows| && k < |fmt| && PackRows(fmt, rows).Some?
    requires at + |PackRows(fmt, rows).value| <= |bs|
    requires bs[at..at + |PackRows(fmt, rows).value|] == PackRows(fmt, rows).value
    ensures Read(fmt[k], bs, at + i * Size(fmt) + Offset(fmt, k)) == Some(rows[i][k])
  {
    hide Pack, PackRows, Encode, Decode, Offset;
    var body := PackRows(fmt, rows).value;
    PackedRow(fmt, rows, i);
    PackedField(fmt, rows[i], k);
    DecodeEncode(fmt[k], rows[i][k]);
    SliceOfSlice(bs, at, body, i * Size(fmt), Size(fmt), Offset(fmt, k), fmt[k].Width());
  }

  lemma SliceOfSlice(bs: seq<byte>, at: nat, body: seq<byte>, a: nat, n: nat, b: nat, w: nat)
    requires at + |body| <= |bs| && bs[at..at + |body|] == body
    requires a + n <= |body| && b + w <= n
    ensures bs[at + a + b..at + a + b + w] == body[a..a + n][b..b + w]
  {
    SubSlice(bs, at, at + |body|, a + b, a + b + w);
    SubSlice(body, a, a + n, b, b + w);
  }

  lemma SubSlice(s: seq<byte>, lo: nat, hi: nat, x: nat, y: nat)
    requires lo <= hi <= |s| && x <= y <= hi - lo
    ensures s[lo..hi][x..y] == s[lo + x..lo + y]
  {
    var t := s[lo..hi];
    forall i | 0 <= i < y - x
      ensures t[x..y][i] == s[lo + x..lo + y][i]
    {
      assert t[x + i] == s[lo + (x + i)];
    }
  }
}
