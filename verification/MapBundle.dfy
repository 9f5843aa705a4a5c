/**
 * The compiled-in map bundle: its layout and its bounds-checked reader
 * (crates/radar-workstation/src/overlay/mod.rs).
 */
module MapBundle {
  import opened Bytes
  import opened Records
  import opened Wrappers

  /** "RWMOVL01". */
  const MAGIC: seq<byte> := [82, 87, 77, 79, 86, 76, 48, 49]
  const FORMAT_VERSION: int := 1
  const HEADER_LEN: nat := 32
  const LAYER_ENTRY_LEN: nat := 12
  const PART_ENTRY_LEN: nat := 24
  const POINT_LEN: nat := 8
  const LABEL_ENTRY_LEN: nat := 16

  datatype Place = Place(lon: real, lat: real)

  datatype Bbox = Bbox(minLon: real, minLat: real, maxLon: real, maxLat: real)

  datatype Layer = Layer(kind: nat, firstPart: nat, partCount: nat)

  datatype Part = Part(bbox: Bbox, firstPoint: nat, pointCount: nat)

  /** A label; its name is the UTF-8 octets. */
  datatype Label = Label(place: Place, rank: nat, name: seq<byte>)

  // ---------------------------------------------------------------- lines

  type Polyline = seq<Place>

  /** All places of all lines, one after the other. */
  function Flatten(lines: seq<Polyline>): Polyline {
    if lines == [] then [] else Flatten(lines[..|lines| - 1]) + lines[|lines| - 1]
  }

  lemma FlattenSnoc(lines: seq<Polyline>, line: Polyline)
    ensures Flatten(lines + [line]) == Flatten(lines) + line
  {
    assert (lines + [line])[..|lines|] == lines;
  }

  lemma {:induction false} FlattenAt(lines: seq<Polyline>, k: nat)
    requires k < |lines|
    ensures |Flatten(lines[..k])| + |lines[k]| <= |Flatten(lines)|
    ensures forall m: nat :: m < |lines[k]| ==> Flatten(lines)[|Flatten(lines[..k])| + m] == lines[k][m]
  {
    var n := |lines| - 1;
    if k < n {
      assert lines[..n][..k] == lines[..k];
      FlattenAt(lines[..n], k);
    }
  }

  // ---------------------------------------------------------------- the bundle

  /** Coordinates are kept in units of 1e-7 degree. */
  function FixedToDeg(v: int): real {
    v as real / 10000000.0
  }

  datatype Bundle = Bundle(
    bytes: seq<byte>,
    layerCount: nat, partCount: nat, pointCount: nat, labelCount: nat, stringBytes: nat,
    layersOff: nat, partsOff: nat, pointsOff: nat, labelsOff: nat, stringsOff: nat)

  /** `Bundle::parse`. Offsets have no width here: one too large is one past the end. */
  function Parse(bytes: seq<byte>): Option<Bundle> {
    if |bytes| < 8 || bytes[..8] != MAGIC then None
    else
      var version := Read(U32, bytes, 8);
      if version != Some(FORMAT_VERSION) then None
      else
        var layerCount := Read(U32, bytes, 12);
        var partCount := Read(U32, bytes, 16);
        var pointCount := Read(U32, bytes, 20);
        var labelCount := Read(U32, bytes, 24);
        var stringBytes := Read(U32, bytes, 28);
        if stringBytes.None? then None
        else
          var layersOff := HEADER_LEN;
          var partsOff := layersOff + layerCount.value * LAYER_ENTRY_LEN;
          var pointsOff := partsOff + partCount.value * PART_ENTRY_LEN;
          var labelsOff := pointsOff + pointCount.value * POINT_LEN;
          var stringsOff := labelsOff + labelCount.value * LABEL_ENTRY_LEN;
          if stringsOff + stringBytes.value > |bytes| then None
          else
            Some(Bundle(bytes, layerCount.value, partCount.value, pointCount.value, labelCount.value, stringBytes.value,
                        layersOff, partsOff, pointsOff, labelsOff, stringsOff))
  }

  // ---------------------------------------------------------------- walking

  /** `(lo..hi).filter_map(at)`. */
  function Collect<T>(at: nat -> Option<T>, lo: nat, hi: nat): (r: seq<T>)
    requires lo <= hi
    ensures |r| <= hi - lo
    decreases hi - lo
  {
    if lo == hi then []
    else (match at(lo) case Some(v) => [v] case None => []) + Collect(at, lo + 1, hi)
  }

  lemma {:induction false} CollectAll<T>(at: nat -> Option<T>, lo: nat, hi: nat)
    requires lo <= hi && forall i :: lo <= i < hi ==> at(i).Some?
    ensures |Collect(at, lo, hi)| == hi - lo
    ensures forall i :: lo <= i < hi ==> Collect(at, lo, hi)[i - lo] == at(i).value
    decreases hi - lo
  {
    if lo < hi {
      CollectAll(at, lo + 1, hi);
      assert Collect(at, lo, hi) == [at(lo).value] + Collect(at, lo + 1, hi);
      hide Collect;
      forall i | lo < i < hi
        ensures Collect(at, lo, hi)[i - lo] == at(i).value
      {
        assert Collect(at, lo, hi)[i - lo] == Collect(at, lo + 1, hi)[i - (lo + 1)];
      }
    }
  }

  function LayerAt(b: Bundle, i: nat): Option<Layer> {
    var off := b.layersOff + i * LAYER_ENTRY_LEN;
    var kind := Read(U32, b.bytes, off);
    var firstPart := Read(U32, b.bytes, off + 4);
    var partCount := Read(U32, b.bytes, off + 8);
    if kind.None? || firstPart.None? || partCount.None? then None
    else Some(Layer(kind.value, firstPart.value, partCount.value))
  }

  function Layers(b: Bundle): seq<Layer> {
    Collect(LayersOf(b), 0, b.layerCount)
  }

  function LayersOf(b: Bundle): nat -> Option<Layer> {
    (i: nat) => LayerAt(b, i)
  }

  function PartAt(b: Bundle, i: nat): Option<Part> {
    var off := b.partsOff + i * PART_ENTRY_LEN;
    var firstPoint := Read(U32, b.bytes, off);
    var pointCount := Read(U32, b.bytes, off + 4);
    var minLon := Read(I32, b.bytes, off + 8);
    var minLat := Read(I32, b.bytes, off + 12);
    var maxLon := Read(I32, b.bytes, off + 16);
    var maxLat := Read(I32, b.bytes, off + 20);
    if firstPoint.None? || pointCount.None? || minLon.None? || minLat.None? || maxLon.None? || maxLat.None? then None
    else
      var bbox := Bbox(FixedToDeg(minLon.value), FixedToDeg(minLat.value),
                       FixedToDeg(maxLon.value), FixedToDeg(maxLat.value));
      Some(Part(bbox, firstPoint.value, pointCount.value))
  }

  /** The parts of a layer, as far as the bundle has them. */
  function Parts(b: Bundle, layer: Layer): seq<Part> {
    Collect(PartsOf(b), Min(layer.firstPart, b.partCount), Min(layer.firstPart + layer.partCount, b.partCount))
  }

  function PartsOf(b: Bundle): nat -> Option<Part> {
    (i: nat) => PartAt(b, i)
  }

  function PointAt(b: Bundle, i: nat): Option<Place> {
    var off := b.pointsOff + i * POINT_LEN;
    var lon := Read(I32, b.bytes, off);
    var lat := Read(I32, b.bytes, off + 4);
    if lon.None? || lat.None? then None else Some(Place(FixedToDeg(lon.value), FixedToDeg(lat.value)))
  }

  function Points(b: Bundle, part: Part): seq<Place> {
    Collect(PointsOf(b), Min(part.firstPoint, b.pointCount), Min(part.firstPoint + part.pointCount, b.pointCount))
  }

  function PointsOf(b: Bundle): nat -> Option<Place> {
    (i: nat) => PointAt(b, i)
  }

  /** `utf8` says which octets are text. */
  function ReadName(b: Bundle, nameOff: nat, nameLen: nat, utf8: seq<byte> -> bool): Option<seq<byte>> {
    var start := b.stringsOff + nameOff;
    var end := start + nameLen;
    if end > b.stringsOff + b.stringBytes || end > |b.bytes| || !utf8(b.bytes[start..end]) then None
    else Some(b.bytes[start..end])
  }

  function LabelAt(b: Bundle, i: nat, utf8: seq<byte> -> bool): Option<Label> {
    var off := b.labelsOff + i * LABEL_ENTRY_LEN;
    var lon := Read(I32, b.bytes, off);
    var lat := Read(I32, b.bytes, off + 4);
    var rank := Read(U16, b.bytes, off + 8);
    var nameOff := Read(U32, b.bytes, off + 10);
    var nameLen := Read(U16, b.bytes, off + 14);
    if lon.None? || lat.None? || rank.None? || nameOff.None? || nameLen.None? then None
    else
      var name := ReadName(b, nameOff.value, nameLen.value, utf8);
      if name.None? then None
      else Some(Label(Place(FixedToDeg(lon.value), FixedToDeg(lat.value)), rank.value, name.value))
  }

  function Labels(b: Bundle, utf8: seq<byte> -> bool): seq<Label> {
    Collect(LabelsOf(b, utf8), 0, b.labelCount)
  }

  function LabelsOf(b: Bundle, utf8: seq<byte> -> bool): nat -> Option<Label> {
    (i: nat) => LabelAt(b, i, utf8)
  }

  // ---------------------------------------------------------------- what acceptance promises

  /** The sections follow each other and end inside the bytes. */
  ghost predicate Consistent(b: Bundle) {
    && b.layersOff == HEADER_LEN
    && b.partsOff == b.layersOff + b.layerCount * LAYER_ENTRY_LEN
    && b.pointsOff == b.partsOff + b.partCount * PART_ENTRY_LEN
    && b.labelsOff == b.pointsOff + b.pointCount * POINT_LEN
    && b.stringsOff == b.labelsOff + b.labelCount * LABEL_ENTRY_LEN
    && b.stringsOff + b.stringBytes <= |b.bytes|
  }

  lemma ParsedIsConsistent(bytes: seq<byte>)
    ensures Parse(bytes).Some? ==> Consistent(Parse(bytes).value) && Parse(bytes).value.bytes == bytes
  {
  }

  lemma EntryInside(i: nat, n: nat, size: nat)
    requires i < n
    ensures i * size + size <= n * size
  {
    MulMono(i + 1, n, size);
    assert (i + 1) * size == i * size + size;
  }

  /** Whatever bytes are accepted, no layer, part or point in the declared counts is ever passed over. */
  lemma NothingPassedOver(bytes: seq<byte>, layer: Layer, part: Part)
    requires Parse(bytes).Some?
    ensures var b := Parse(bytes).value;
            && |Layers(b)| == b.layerCount
            && |Parts(b, layer)| ==
                 Min(layer.firstPart + layer.partCount, b.partCount) - Min(layer.firstPart, b.partCount)
            && |Points(b, part)| ==
                 Min(part.firstPoint + part.pointCount, b.pointCount) - Min(part.firstPoint, b.pointCount)
  {
    hide Parse, LayersOf, PartsOf, PointsOf, Collect, Consistent;
    ParsedIsConsistent(bytes);
    var b := Parse(bytes).value;
    LayersExist(b);
    PartsExist(b);
    PointsExist(b);
    CollectAll(LayersOf(b), 0, b.layerCount);
    CollectAll(PartsOf(b), Min(layer.firstPart, b.partCount), Min(layer.firstPart + layer.partCount, b.partCount));
    CollectAll(PointsOf(b), Min(part.firstPoint, b.pointCount), Min(part.firstPoint + part.pointCount, b.pointCount));
  }

  lemma LayersExist(b: Bundle)
    requires Consistent(b)
    ensures forall i: nat :: i < b.layerCount ==> LayersOf(b)(i).Some?
  {
    hide Read;
    forall i: nat | i < b.layerCount
      ensures LayersOf(b)(i).Some?
    {
      EntryInside(i, b.layerCount, LAYER_ENTRY_LEN);
    }
  }

  lemma PartsExist(b: Bundle)
    requires Consistent(b)
    ensures forall i: nat :: i < b.partCount ==> PartsOf(b)(i).Some?
  {
    hide Read;
    forall i: nat | i < b.partCount
      ensures PartsOf(b)(i).Some?
    {
      EntryInside(i, b.partCount, PART_ENTRY_LEN);
    }
  }

  lemma PointsExist(b: Bundle)
    requires Consistent(b)
    ensures forall i: nat :: i < b.pointCount ==> PointsOf(b)(i).Some?
  {
    hide Read;
    forall i: nat | i < b.pointCount
      ensures PointsOf(b)(i).Some?
    {
      EntryInside(i, b.pointCount, POINT_LEN);
    }
  }

  /** A label is passed over exactly when its name runs past the string table or is not text. */
  lemma LabelPassedOverIff(bytes: seq<byte>, i: nat, utf8: seq<byte> -> bool)
    requires Parse(bytes).Some? && i < Parse(bytes).value.labelCount
    ensures var b := Parse(bytes).value;
            var at := Read(U32, bytes, b.labelsOff + i * LABEL_ENTRY_LEN + 10);
            var len := Read(U16, bytes, b.labelsOff + i * LABEL_ENTRY_LEN + 14);
            && at.Some? && len.Some?
            && (LabelAt(b, i, utf8).None? <==>
                  at.value + len.value > b.stringBytes
                  || !utf8(bytes[b.stringsOff + at.value..b.stringsOff + at.value + len.value]))
  {
    hide Parse;
    ParsedIsConsistent(bytes);
    EntryInside(i, Parse(bytes).value.labelCount, LABEL_ENTRY_LEN);
  }
}
