/** Where everything stands in a bundle, octet by octet, on both sides: what is read and what is written. */
module BundleOctets {
  import opened Bytes
  import opened Wrappers
  import opened Records
  import opened MapBundle
  import opened BundleWriter
  import opened BundleRoundTrip

  // ---------------------------------------------------------------- numbers

  function Half(bs: seq<byte>, at: nat): nat
    requires at + 2 <= |bs|
  {
    bs[at] as int + 256 * bs[at + 1] as int
  }

  function Word(bs: seq<byte>, at: nat): nat
    requires at + 4 <= |bs|
  {
    Half(bs, at) + 65536 * Half(bs, at + 2)
  }

  /** The same four octets in two's complement. */
  function Signed(bs: seq<byte>, at: nat): int
    requires at + 4 <= |bs|
  {
    if bs[at + 3] < 128 then Word(bs, at) else Word(bs, at) - 4_294_967_296
  }

  /** Seven decimals of a degree. */
  function Degrees(bs: seq<byte>, at: nat): real
    requires at + 4 <= |bs|
  {
    Signed(bs, at) as real * 0.0000001
  }

  lemma HalfRead(bs: seq<byte>, at: nat)
    requires at + 2 <= |bs|
    ensures Read(Field.U16, bs, at) == Some(Half(bs, at))
  {
    var s := bs[at..at + 2];
    assert s[1..][1..] == [] && s[1..][0] == bs[at + 1];
    assert FromLittleEndian(s[1..]) == bs[at + 1];
  }

  lemma FourOctets(s: seq<byte>)
    requires |s| == 4
    ensures FromLittleEndian(s) == s[0] as int + 256 * s[1] as int + 65536 * (s[2] as int + 256 * s[3] as int)
  {
    var a, b, c := s[1..], s[2..], s[3..];
    assert a[1..] == b && b[1..] == c && c[1..] == [];
    assert FromLittleEndian(c) == s[3];
    assert FromLittleEndian(b) == s[2] as int + 256 * s[3] as int;
    assert FromLittleEndian(a) == s[1] as int + 256 * FromLittleEndian(b);
  }

  lemma WordRead(bs: seq<byte>, at: nat)
    requires at + 4 <= |bs|
    ensures Read(Field.U32, bs, at) == Some(Word(bs, at)) && Read(Field.I32, bs, at) == Some(Signed(bs, at))
  {
    FourOctets(bs[at..at + 4]);
  }

  // ---------------------------------------------------------------- what is read

  /** The five counts of the header. */
  datatype Counts = Counts(layers: nat, parts: nat, points: nat, labels: nat, strings: nat)

  function CountsOf(bs: seq<byte>): Counts
    requires |bs| >= 32
  {
    Counts(Word(bs, 12), Word(bs, 16), Word(bs, 20), Word(bs, 24), Word(bs, 28))
  }

  function PartsAt(c: Counts): nat { 32 + 12 * c.layers }

  function PointsAt(c: Counts): nat { PartsAt(c) + 24 * c.parts }

  function LabelsAt(c: Counts): nat { PointsAt(c) + 8 * c.points }

  function StringsAt(c: Counts): nat { LabelsAt(c) + 16 * c.labels }

  /** Octets are accepted exactly when they begin with the magic and version 1 and hold all that the counts announce. */
  lemma ParseIff(bs: seq<byte>)
    ensures Parse(bs).Some? <==>
              && |bs| >= 32 && bs[..8] == Ascii("RWMOVL01") && Word(bs, 8) == 1
              && StringsAt(CountsOf(bs)) + CountsOf(bs).strings <= |bs|
    ensures Parse(bs).Some? ==>
              var b, c := Parse(bs).value, CountsOf(bs);
              && b.bytes == bs
              && (b.layerCount, b.partCount, b.pointCount, b.labelCount, b.stringBytes)
                 == (c.layers, c.parts, c.points, c.labels, c.strings)
              && (b.layersOff, b.partsOff, b.pointsOff, b.labelsOff, b.stringsOff)
                 == (32, PartsAt(c), PointsAt(c), LabelsAt(c), StringsAt(c))
  {
    hide Read, Word;
    assert Ascii("RWMOVL01") == MAGIC;
    if |bs| >= 32 {
      WordRead(bs, 8);
      WordRead(bs, 12);
      WordRead(bs, 16);
      WordRead(bs, 20);
      WordRead(bs, 24);
      WordRead(bs, 28);
    } else {
      assert Read(Field.U32, bs, 28) == None;
    }
  }

  lemma PlaceOctets(bs: seq<byte>, at: nat)
    requires at + 8 <= |bs|
    ensures Read(Field.I32, bs, at).Some? && FixedToDeg(Read(Field.I32, bs, at).value) == Degrees(bs, at)
    ensures Read(Field.I32, bs, at + 4).Some? && FixedToDeg(Read(Field.I32, bs, at + 4).value) == Degrees(bs, at + 4)
  {
    hide Read, Word;
    WordRead(bs, at);
    WordRead(bs, at + 4);
  }

  /** A layer is its kind, its first part and how many; a part is its points, and its box west, south, east, north. */
  lemma EntryOctets(bs: seq<byte>, i: nat, j: nat)
    requires Parse(bs).Some? && i < CountsOf(bs).layers && j < CountsOf(bs).parts
    ensures var at := 32 + 12 * i;
            && at + 12 <= |bs|
            && LayerAt(Parse(bs).value, i) == Some(Layer(Word(bs, at), Word(bs, at + 4), Word(bs, at + 8)))
    ensures var at := PartsAt(CountsOf(bs)) + 24 * j;
            && at + 24 <= |bs|
            && PartAt(Parse(bs).value, j)
               == Some(Part(Bbox(Degrees(bs, at + 8), Degrees(bs, at + 12), Degrees(bs, at + 16), Degrees(bs, at + 20)),
                            Word(bs, at), Word(bs, at + 4)))
  {
    ParseIff(bs);
    hide Parse, Read, Word;
    var c := CountsOf(bs);
    EntryInside(i, c.layers, 12);
    EntryInside(j, c.parts, 24);
    var l, p := 32 + 12 * i, PartsAt(c) + 24 * j;
    WordRead(bs, l);
    WordRead(bs, l + 4);
    WordRead(bs, l + 8);
    WordRead(bs, p);
    WordRead(bs, p + 4);
    PlaceOctets(bs, p + 8);
    PlaceOctets(bs, p + 16);
  }

  /** A point is its longitude and its latitude. */
  lemma PointOctets(bs: seq<byte>, i: nat)
    requires Parse(bs).Some? && i < CountsOf(bs).points
    ensures var at := PointsAt(CountsOf(bs)) + 8 * i;
            at + 8 <= |bs| && PointAt(Parse(bs).value, i) == Some(Place(Degrees(bs, at), Degrees(bs, at + 4)))
  {
    ParseIff(bs);
    hide Parse, Read, Word;
    EntryInside(i, CountsOf(bs).points, 8);
    PlaceOctets(bs, PointsAt(CountsOf(bs)) + 8 * i);
  }

  /** A label is its place, its rank, and where in the string table its name is. */
  lemma LabelOctets(bs: seq<byte>, i: nat, utf8: seq<byte> -> bool)
    requires Parse(bs).Some? && i < CountsOf(bs).labels
    ensures var c := CountsOf(bs);
            var at := LabelsAt(c) + 16 * i;
            && at + 16 <= StringsAt(c) <= StringsAt(c) + c.strings <= |bs|
            && var start, end := Word(bs, at + 10), Word(bs, at + 10) + Half(bs, at + 14);
            && (end > c.strings ==> LabelAt(Parse(bs).value, i, utf8) == None)
            && (end <= c.strings ==>
                  var name := bs[StringsAt(c) + start..StringsAt(c) + end];
                  LabelAt(Parse(bs).value, i, utf8)
                  == if utf8(name) then Some(Label(Place(Degrees(bs, at), Degrees(bs, at + 4)), Half(bs, at + 8), name))
                     else None)
  {
    ParseIff(bs);
    hide Parse, Read, Word, Half;
    var c := CountsOf(bs);
    var at := LabelsAt(c) + 16 * i;
    EntryInside(i, c.labels, 16);
    PlaceOctets(bs, at);
    HalfRead(bs, at + 8);
    WordRead(bs, at + 10);
    HalfRead(bs, at + 14);
  }
}
