/**
 * Reading back what was written: every layer, part, point and label of a built bundle,
 * in order, at its fixed-point value.
 */
module BundleRoundTrip {
  import opened Bytes
  import opened Records
  import opened Wrappers
  import opened MapBundle
  import opened BundleWriter

  function Stored(p: Place): Place {
    Place(FixedToDeg(DegToFixed(p.lon)), FixedToDeg(DegToFixed(p.lat)))
  }

  // ---------------------------------------------------------------- sections

  /** `body` is what `bs` holds at `at`. */
  ghost predicate Holds(bs: seq<byte>, at: nat, body: seq<byte>) {
    at + |body| <= |bs| && bs[at..at + |body|] == body
  }

  lemma Sections(a: seq<byte>, b: seq<byte>, c: seq<byte>, d: seq<byte>, e: seq<byte>, f: seq<byte>, g: seq<byte>)
    ensures var all := a + b + c + d + e + f + g;
            && |all| == |a| + |b| + |c| + |d| + |e| + |f| + |g|
            && Holds(all, 0, a) && Holds(all, |a|, b) && Holds(all, |a| + |b|, c)
            && Holds(all, |a| + |b| + |c|, d) && Holds(all, |a| + |b| + |c| + |d|, e)
            && Holds(all, |a| + |b| + |c| + |d| + |e|, f) && Holds(all, |a| + |b| + |c| + |d| + |e| + |f|, g)
  {
  }

  /** Where the fields are, as the reader has it. */
  lemma FieldOffsets()
    ensures Offset(LAYER, 0) == 0 && Offset(LAYER, 1) == 4 && Offset(LAYER, 2) == 8
    ensures Offset(PART, 0) == 0 && Offset(PART, 1) == 4 && Offset(PART, 2) == 8
    ensures Offset(PART, 3) == 12 && Offset(PART, 4) == 16 && Offset(PART, 5) == 20
    ensures Offset(POINT, 0) == 0 && Offset(POINT, 1) == 4
    ensures Offset(LABEL, 0) == 0 && Offset(LABEL, 1) == 4 && Offset(LABEL, 2) == 8
    ensures Offset(LABEL, 3) == 10 && Offset(LABEL, 4) == 14
    ensures Offset(HEADER, 0) == 0 && Offset(HEADER, 1) == 4 && Offset(HEADER, 2) == 8
    ensures Offset(HEADER, 3) == 12 && Offset(HEADER, 4) == 16 && Offset(HEADER, 5) == 20
  {
    hide Size, Offset;
    Offsets(LAYER);
    Offsets(PART);
    Offsets(POINT);
    Offsets(LABEL);
    Offsets(HEADER);
  }

  lemma Sizes()
    ensures Size(HEADER) == 24 && Size(LAYER) == LAYER_ENTRY_LEN && Size(PART) == PART_ENTRY_LEN
    ensures Size(POINT) == POINT_LEN && Size(LABEL) == LABEL_ENTRY_LEN
  {
    hide Size, Offset;
    FieldOffsets();
    Offsets(LAYER);
    Offsets(PART);
    Offsets(POINT);
    Offsets(LABEL);
    Offsets(HEADER);
    assert Offset(LAYER, 3) == 12 && Offset(PART, 6) == 24 && Offset(POINT, 2) == 8;
    assert Offset(LABEL, 5) == 16 && Offset(HEADER, 6) == 24;
  }

  /** Each field begins where the one before it ends. */
  lemma Offsets(fmt: Format)
    ensures Offset(fmt, 0) == 0 && Offset(fmt, |fmt|) == Size(fmt)
    ensures forall k: nat :: 0 < k <= |fmt| ==> Offset(fmt, k) == Offset(fmt, k - 1) + fmt[k - 1].Width()
  {
    assert fmt[..|fmt|] == fmt;
    forall k: nat | 0 < k <= |fmt|
      ensures Offset(fmt, k) == Offset(fmt, k - 1) + fmt[k - 1].Width()
    {
      assert fmt[..k][..k - 1] == fmt[..k - 1];
    }
  }

  // ---------------------------------------------------------------- the bundle written

  /** The sections of a built bundle, and what `Parse` makes of it. */
  ghost predicate Built(layerParts: map<nat, seq<Polyline>>, labels: seq<City>, b: Bundle) {
    && Has(layerParts, |KINDS|)
    && Consistent(b)
    && var parts := PartsBefore(layerParts, |KINDS|);
    && NoneEmpty(parts)
    && b.layerCount == |KINDS| + 1 && b.partCount == |parts| && b.pointCount == |Flatten(parts)|
    && b.labelCount == |labels| && b.stringBytes == |Names(labels)|
    && Section(b, b.layersOff, LAYER, LayerRows(layerParts, |KINDS|) + [LabelLayerRow()])
    && Section(b, b.partsOff, PART, PartRows(parts))
    && Section(b, b.pointsOff, POINT, PointRows(Flatten(parts)))
    && Section(b, b.labelsOff, LABEL, LabelRows(labels))
    && Holds(b.bytes, b.stringsOff, Names(labels))
  }

  ghost predicate Section(b: Bundle, at: nat, fmt: Format, rows: seq<seq<int>>)
    requires Shaped(fmt, rows)
  {
    PackRows(fmt, rows).Some? && Holds(b.bytes, at, PackRows(fmt, rows).value)
  }

  lemma FieldOf(b: Bundle, at: nat, fmt: Format, rows: seq<seq<int>>, i: nat, k: nat)
    requires Shaped(fmt, rows) && Section(b, at, fmt, rows) && i < |rows| && k < |fmt|
    ensures Read(fmt[k], b.bytes, at + i * Size(fmt) + Offset(fmt, k)) == Some(rows[i][k])
  {
    hide PackRows, Read, Size, Offset;
    FieldReadsBack(fmt, rows, i, k, b.bytes, at);
  }

  /** The header of a built bundle. */
  lemma HeaderReads(bs: seq<byte>, row: seq<int>)
    requires |row| == |HEADER| && Pack(HEADER, row).Some? && row[0] == FORMAT_VERSION
    requires Holds(bs, 0, MAGIC) && Holds(bs, 8, Pack(HEADER, row).value)
    ensures |bs| >= 32 && bs[..8] == MAGIC && Read(U32, bs, 8) == Some(FORMAT_VERSION)
    ensures Read(U32, bs, 12) == Some(row[1]) && Read(U32, bs, 16) == Some(row[2]) && Read(U32, bs, 20) == Some(row[3])
    ensures Read(U32, bs, 24) == Some(row[4]) && Read(U32, bs, 28) == Some(row[5])
  {
    hide Pack, PackRows, Read, Size, Offset;
    Sizes();
    FieldOffsets();
    var rows := [] + [row];
    PackRowsSnoc(HEADER, [], row);
    NoRows(HEADER);
    var packed := Pack(HEADER, row).value;
    assert [] + packed == packed;
    forall k: nat | k < 6
      ensures Read(U32, bs, 8 + Offset(HEADER, k)) == Some(row[k])
    {
      FieldReadsBack(HEADER, rows, 0, k, bs, 8);
    }
    assert bs[..8] == bs[0..0 + |MAGIC|];
  }

  /** The sections of a built bundle, all of them written. */
  lemma BuildIs(layerParts: map<nat, seq<Polyline>>, labels: seq<City>)
    ensures Build(layerParts, labels).Some? ==>
              && Has(layerParts, |KINDS|)
              && var parts := PartsBefore(layerParts, |KINDS|);
              var header := Pack(HEADER, HeaderRow(|parts|, |Flatten(parts)|, |labels|, |Names(labels)|));
              var layers := PackRows(LAYER, LayerRows(layerParts, |KINDS|) + [LabelLayerRow()]);
              && NoneEmpty(parts) && header.Some? && layers.Some?
              && var index := PackRows(PART, PartRows(parts));
              var points := PackRows(POINT, PointRows(Flatten(parts)));
              var labelIndex := PackRows(LABEL, LabelRows(labels));
              && index.Some? && points.Some? && labelIndex.Some?
              && Build(layerParts, labels).value ==
                   MAGIC + header.value + layers.value + index.value + points.value + labelIndex.value + Names(labels)
  {
    hide Pack, PackRows, LayerRows, PartRows, PointRows, LabelRows, PartsBefore, Flatten, Names;
    if Build(layerParts, labels).Some? {
      PackRowsSnoc(LAYER, LayerRows(layerParts, |KINDS|), LabelLayerRow());
    }
  }

  /** Whatever is built is accepted, with these counts and these sections. */
  lemma BuiltIsParsed(layerParts: map<nat, seq<Polyline>>, labels: seq<City>)
    ensures Build(layerParts, labels).Some? ==>
              var b := Parse(Build(layerParts, labels).value);
              b.Some? && Built(layerParts, labels, b.value)
  {
    hide Build, Pack, PackRows, LayerRows, PartRows, PointRows, LabelRows, PartsBefore, Flatten, Names, Read, Size;
    BuildIs(layerParts, labels);
    if Build(layerParts, labels).Some? {
      var parts := PartsBefore(layerParts, |KINDS|);
      var layerRows := LayerRows(layerParts, |KINDS|) + [LabelLayerRow()];
      var row := HeaderRow(|parts|, |Flatten(parts)|, |labels|, |Names(labels)|);
      Sections(MAGIC, Pack(HEADER, row).value, PackRows(LAYER, layerRows).value, PackRows(PART, PartRows(parts)).value,
               PackRows(POINT, PointRows(Flatten(parts))).value, PackRows(LABEL, LabelRows(labels)).value,
               Names(labels));
      Sizes();
      HeaderReads(Build(layerParts, labels).value, row);
      PackedLength(LAYER, layerRows);
      PackedLength(PART, PartRows(parts));
      PackedLength(POINT, PointRows(Flatten(parts)));
      PackedLength(LABEL, LabelRows(labels));
    }
  }

  // ---------------------------------------------------------------- layers

  lemma {:induction false} LayerRowAt(layerParts: map<nat, seq<Polyline>>, n: nat, j: nat)
    requires j < n <= |KINDS| && Has(layerParts, n)
    ensures LayerRows(layerParts, n)[j] == LayerRow(layerParts, j)
    decreases n
  {
    hide LayerRow;
    if j < n - 1 {
      LayerRowAt(layerParts, n - 1, j);
    }
  }

  lemma LayerEntry(layerParts: map<nat, seq<Polyline>>, labels: seq<City>, b: Bundle, j: nat)
    requires Built(layerParts, labels, b) && j <= |KINDS|
    ensures LayersOf(b)(j) == Some(
              if j == |KINDS| then Layer(5, 0, 0)
              else Layer(KINDS[j], |PartsBefore(layerParts, j)|, |layerParts[KINDS[j]]|))
  {
    hide Read, Size, Offset, PackRows, Pack, LayerRows, PartRows, PointRows, LabelRows, PartsBefore, Flatten, Names;
    Sizes();
    FieldOffsets();
    var rows := LayerRows(layerParts, |KINDS|) + [LabelLayerRow()];
    if j < |KINDS| {
      LayerRowAt(layerParts, |KINDS|, j);
    }
    FieldOf(b, b.layersOff, LAYER, rows, j, 0);
    FieldOf(b, b.layersOff, LAYER, rows, j, 1);
    FieldOf(b, b.layersOff, LAYER, rows, j, 2);
  }

  lemma LayersReadBack(layerParts: map<nat, seq<Polyline>>, labels: seq<City>, b: Bundle)
    requires Built(layerParts, labels, b)
    ensures |Layers(b)| == |KINDS| + 1 && Layers(b)[|KINDS|] == Layer(5, 0, 0)
    ensures forall j: nat :: j < |KINDS| ==>
              Layers(b)[j] == Layer(KINDS[j], |PartsBefore(layerParts, j)|, |layerParts[KINDS[j]]|)
  {
    hide Collect, LayersOf, PartsBefore, Section, Holds;
    forall j: nat | j <= |KINDS|
      ensures LayersOf(b)(j) == Some(
                if j == |KINDS| then Layer(5, 0, 0)
                else Layer(KINDS[j], |PartsBefore(layerParts, j)|, |layerParts[KINDS[j]]|))
    {
      LayerEntry(layerParts, labels, b, j);
    }
    CollectAll(LayersOf(b), 0, b.layerCount);
    assert forall j: nat :: j <= |KINDS| ==> Layers(b)[j - 0] == LayersOf(b)(j).value;
  }

  // ---------------------------------------------------------------- parts

  lemma {:induction false} PartRowAt(parts: seq<Polyline>, i: nat)
    requires i < |parts| && NoneEmpty(parts)
    ensures PartRows(parts)[i] == PartRow(|Flatten(parts[..i])|, parts[i])
  {
    hide PartRow, Flatten;
    var n := |parts| - 1;
    if i < n {
      assert parts[..n][..i] == parts[..i];
      PartRowAt(parts[..n], i);
    }
  }

  function StoredBbox(box: Bbox): Bbox {
    Bbox(FixedToDeg(DegToFixed(box.minLon)), FixedToDeg(DegToFixed(box.minLat)),
         FixedToDeg(DegToFixed(box.maxLon)), FixedToDeg(DegToFixed(box.maxLat)))
  }

  lemma PartEntry(layerParts: map<nat, seq<Polyline>>, labels: seq<City>, b: Bundle, i: nat)
    requires Built(layerParts, labels, b) && i < |PartsBefore(layerParts, |KINDS|)|
    ensures var parts := PartsBefore(layerParts, |KINDS|);
            PartsOf(b)(i) == Some(Part(StoredBbox(PartBbox(parts[i])), |Flatten(parts[..i])|, |parts[i]|))
  {
    hide Read, Size, Offset, PackRows, Pack, LayerRows, PartRows, PointRows, LabelRows, PartsBefore, Flatten, Names;
    hide FixedToDeg, DegToFixed, PartBbox;
    var parts := PartsBefore(layerParts, |KINDS|);
    Sizes();
    FieldOffsets();
    PartRowAt(parts, i);
    var rows := PartRows(parts);
    FieldOf(b, b.partsOff, PART, rows, i, 0);
    FieldOf(b, b.partsOff, PART, rows, i, 1);
    FieldOf(b, b.partsOff, PART, rows, i, 2);
    FieldOf(b, b.partsOff, PART, rows, i, 3);
    FieldOf(b, b.partsOff, PART, rows, i, 4);
    FieldOf(b, b.partsOff, PART, rows, i, 5);
  }

  /** Layer `j`'s parts are a run of all parts. */
  lemma PartsOfLayer(layerParts: map<nat, seq<Polyline>>, j: nat)
    requires j < |KINDS| && Has(layerParts, |KINDS|)
    ensures var first, all := |PartsBefore(layerParts, j)|, PartsBefore(layerParts, |KINDS|);
            && first + |layerParts[KINDS[j]]| <= |all|
            && forall k: nat :: k < |layerParts[KINDS[j]]| ==> all[first + k] == layerParts[KINDS[j]][k]
  {
    hide PartsBefore;
    NextParts(layerParts, j);
    var more := PartsBeforePrefix(layerParts, j + 1, |KINDS|);
  }

  // ---------------------------------------------------------------- points

  lemma PointEntry(layerParts: map<nat, seq<Polyline>>, labels: seq<City>, b: Bundle, i: nat)
    requires Built(layerParts, labels, b) && i < b.pointCount
    ensures PointsOf(b)(i) == Some(Stored(Flatten(PartsBefore(layerParts, |KINDS|))[i]))
  {
    hide Read, Size, Offset, PackRows, Pack, LayerRows, PartRows, PointRows, LabelRows, PartsBefore, Flatten, Names;
    hide FixedToDeg, DegToFixed;
    var rows := PointRows(Flatten(PartsBefore(layerParts, |KINDS|)));
    Sizes();
    FieldOffsets();
    FieldOf(b, b.pointsOff, POINT, rows, i, 0);
    FieldOf(b, b.pointsOff, POINT, rows, i, 1);
  }

  function StoredAll(line: Polyline): (r: Polyline)
    ensures |r| == |line| && forall m :: 0 <= m < |r| ==> r[m] == Stored(line[m])
  {
    seq(|line|, m requires 0 <= m < |line| => Stored(line[m]))
  }

  lemma PointsReadBack(layerParts: map<nat, seq<Polyline>>, labels: seq<City>, b: Bundle, part: Part, i: nat)
    requires Built(layerParts, labels, b) && i < |PartsBefore(layerParts, |KINDS|)|
    requires var parts := PartsBefore(layerParts, |KINDS|);
             part.firstPoint == |Flatten(parts[..i])| && part.pointCount == |parts[i]|
    ensures Points(b, part) == StoredAll(PartsBefore(layerParts, |KINDS|)[i])
  {
    hide Collect, PointsOf, PartsBefore, Section, Holds, Flatten, Stored;
    var parts := PartsBefore(layerParts, |KINDS|);
    FlattenAt(parts, i);
    forall k: nat | k < b.pointCount
      ensures PointsOf(b)(k) == Some(Stored(Flatten(parts)[k]))
    {
      PointEntry(layerParts, labels, b, k);
    }
    var lo, hi := part.firstPoint, part.firstPoint + part.pointCount;
    CollectAll(PointsOf(b), lo, hi);
    var ps := Points(b, part);
    forall m: nat | m < |parts[i]|
      ensures ps[m] == Stored(parts[i][m])
    {
      assert Collect(PointsOf(b), lo, hi)[lo + m - lo] == PointsOf(b)(lo + m).value;
      assert Flatten(parts)[lo + m] == parts[i][m];
    }
  }

  /** The walk over a layer's parts gives these lines. */
  ghost predicate Reads(b: Bundle, parts: seq<Part>, lines: seq<Polyline>) {
    && |parts| == |lines| && NoneEmpty(lines)
    && forall k :: 0 <= k < |parts| ==>
         Points(b, parts[k]) == StoredAll(lines[k]) && parts[k].bbox == StoredBbox(PartBbox(lines[k]))
  }

  lemma PartsReadBack(layerParts: map<nat, seq<Polyline>>, labels: seq<City>, b: Bundle, j: nat, layer: Layer)
    requires Built(layerParts, labels, b) && j < |KINDS|
    requires layer == Layer(KINDS[j], |PartsBefore(layerParts, j)|, |layerParts[KINDS[j]]|)
    ensures Reads(b, Parts(b, layer), layerParts[KINDS[j]])
  {
    hide Collect, PartsOf, PartsBefore, Section, Holds, Flatten, StoredBbox, PartBbox, Points, StoredAll;
    var all, lines := PartsBefore(layerParts, |KINDS|), layerParts[KINDS[j]];
    PartsOfLayer(layerParts, j);
    forall i: nat | i < |all|
      ensures PartsOf(b)(i) == Some(Part(StoredBbox(PartBbox(all[i])), |Flatten(all[..i])|, |all[i]|))
    {
      PartEntry(layerParts, labels, b, i);
    }
    var lo := layer.firstPart;
    var hi := lo + layer.partCount;
    CollectAll(PartsOf(b), lo, hi);
    forall k: nat | k < |lines|
      ensures lines[k] != []
      ensures Points(b, Parts(b, layer)[k]) == StoredAll(lines[k])
      ensures Parts(b, layer)[k].bbox == StoredBbox(PartBbox(lines[k]))
    {
      assert Collect(PartsOf(b), lo, hi)[lo + k - lo] == PartsOf(b)(lo + k).value;
      assert all[lo + k] == lines[k];
      PointsReadBack(layerParts, labels, b, Parts(b, layer)[k], lo + k);
    }
  }

  // ---------------------------------------------------------------- labels

  lemma {:induction false} NamesAt(labels: seq<City>, i: nat)
    requires i < |labels|
    ensures |Names(labels[..i])| + |labels[i].name| <= |Names(labels)|
    ensures Names(labels)[|Names(labels[..i])|..|Names(labels[..i])| + |labels[i].name|] == labels[i].name
  {
    var n := |labels| - 1;
    if i < n {
      assert labels[..n][..i] == labels[..i];
      NamesAt(labels[..n], i);
    }
  }

  lemma NameReadsBack(b: Bundle, strings: seq<byte>, at: nat, name: seq<byte>, utf8: seq<byte> -> bool)
    requires Holds(b.bytes, b.stringsOff, strings) && b.stringBytes == |strings|
    requires at + |name| <= |strings| && strings[at..at + |name|] == name
    ensures utf8(name) ==> ReadName(b, at, |name|, utf8) == Some(name)
  {
    SubSlice(b.bytes, b.stringsOff, b.stringsOff + |strings|, at, at + |name|);
  }

  lemma LabelEntry(layerParts: map<nat, seq<Polyline>>, labels: seq<City>, b: Bundle, i: nat, utf8: seq<byte> -> bool)
    requires i < |labels|
    ensures Built(layerParts, labels, b) && utf8(labels[i].name) ==>
              LabelsOf(b, utf8)(i) == Some(Label(Stored(labels[i].place), labels[i].rank, labels[i].name))
  {
    hide Read, Size, Offset, PackRows, Pack, LayerRows, PartRows, PointRows, LabelRows, PartsBefore, Flatten, Names;
    hide FixedToDeg, DegToFixed, ReadName, Holds;
    if Built(layerParts, labels, b) {
      Sizes();
      FieldOffsets();
      LabelRowAt(labels, i);
      var rows := LabelRows(labels);
      NamesAt(labels, i);
      NameReadsBack(b, Names(labels), |Names(labels[..i])|, labels[i].name, utf8);
      FieldOf(b, b.labelsOff, LABEL, rows, i, 0);
      FieldOf(b, b.labelsOff, LABEL, rows, i, 1);
      FieldOf(b, b.labelsOff, LABEL, rows, i, 2);
      FieldOf(b, b.labelsOff, LABEL, rows, i, 3);
      FieldOf(b, b.labelsOff, LABEL, rows, i, 4);
    }
  }

  lemma LabelsReadBack(layerParts: map<nat, seq<Polyline>>, labels: seq<City>, b: Bundle, utf8: seq<byte> -> bool)
    ensures Built(layerParts, labels, b) && NamesAreText(labels, utf8) ==> LabelsRead(b, labels, utf8)
  {
    hide Collect, LabelsOf, PartsBefore, Section, Holds, Stored;
    if Built(layerParts, labels, b) && NamesAreText(labels, utf8) {
      forall i: nat | i < |labels|
        ensures LabelsOf(b, utf8)(i) == Some(Label(Stored(labels[i].place), labels[i].rank, labels[i].name))
      {
        LabelEntry(layerParts, labels, b, i, utf8);
      }
      CollectAll(LabelsOf(b, utf8), 0, b.labelCount);
      assert forall i: nat :: i < |labels| ==> Labels(b, utf8)[i - 0] == LabelsOf(b, utf8)(i).value;
    }
  }

  predicate NamesAreText(labels: seq<City>, utf8: seq<byte> -> bool) {
    forall i :: 0 <= i < |labels| ==> utf8(labels[i].name)
  }

  /** The walk over the labels gives these labels, in order. */
  ghost predicate LabelsRead(b: Bundle, labels: seq<City>, utf8: seq<byte> -> bool) {
    && |Labels(b, utf8)| == |labels|
    && forall i :: 0 <= i < |labels| ==>
         Labels(b, utf8)[i] == Label(Stored(labels[i].place), labels[i].rank, labels[i].name)
  }

  // ---------------------------------------------------------------- the theorem

  /** The four geometry layers with their lines, then the label layer, and the labels. */
  ghost predicate WalksBack(layerParts: map<nat, seq<Polyline>>, labels: seq<City>, utf8: seq<byte> -> bool,
                            b: Bundle) {
    && Has(layerParts, |KINDS|)
    && |Layers(b)| == |KINDS| + 1 && Layers(b)[|KINDS|].kind == LABEL_KIND
    && Parts(b, Layers(b)[|KINDS|]) == []
    && (forall j :: 0 <= j < |KINDS| ==>
          Layers(b)[j].kind == KINDS[j] && Reads(b, Parts(b, Layers(b)[j]), layerParts[KINDS[j]]))
    && LabelsRead(b, labels, utf8)
  }

  /** A bundle that can be written is accepted, and walking it gives back everything written. */
  lemma BundleReadsBack(layerParts: map<nat, seq<Polyline>>, labels: seq<City>, utf8: seq<byte> -> bool)
    ensures Build(layerParts, labels).Some? && NamesAreText(labels, utf8) ==>
              var b := Parse(Build(layerParts, labels).value);
              b.Some? && WalksBack(layerParts, labels, utf8, b.value)
  {
    hide Build, Parse, Built, Reads, Parts, Labels, LabelsRead, Layers, PartsBefore;
    BuiltIsParsed(layerParts, labels);
    BuiltHas(layerParts, labels);
    if Build(layerParts, labels).Some? && NamesAreText(labels, utf8) {
      var b := Parse(Build(layerParts, labels).value).value;
      LayersReadBack(layerParts, labels, b);
      forall j: nat | j < |KINDS|
        ensures Reads(b, Parts(b, Layers(b)[j]), layerParts[KINDS[j]])
      {
        PartsReadBack(layerParts, labels, b, j, Layers(b)[j]);
      }
      NoPartsOfLabels(b);
      LabelsReadBack(layerParts, labels, b, utf8);
    }
  }

  lemma BuiltHas(layerParts: map<nat, seq<Polyline>>, labels: seq<City>)
    ensures Build(layerParts, labels).Some? ==> Has(layerParts, |KINDS|)
  {
  }

  lemma NoPartsOfLabels(b: Bundle)
    ensures Parts(b, Layer(5, 0, 0)) == []
  {
  }

  /** Every place is stored within half of 1e-7 degree, and inside its part's stored box. */
  lemma StoredIsClose(line: Polyline, m: nat)
    requires m < |line|
    ensures var p, box := StoredAll(line)[m], StoredBbox(PartBbox(line));
            && -0.00000005 <= p.lon - line[m].lon <= 0.00000005
            && -0.00000005 <= p.lat - line[m].lat <= 0.00000005
            && box.minLon <= p.lon <= box.maxLon && box.minLat <= p.lat <= box.maxLat
  {
    hide FixedToDeg, DegToFixed, MinOf, MaxOf;
    FixedIsClose(line[m].lon);
    FixedIsClose(line[m].lat);
    var box := PartBbox(line);
    assert Lons(line)[m] == line[m].lon && Lats(line)[m] == line[m].lat;
    FixedIsMonotone(box.minLon, line[m].lon);
    FixedIsMonotone(line[m].lon, box.maxLon);
    FixedIsMonotone(box.minLat, line[m].lat);
    FixedIsMonotone(line[m].lat, box.maxLat);
  }

  /** Each side of the stored box is touched by a stored place. */
  lemma BoxIsTight(line: Polyline)
    requires line != []
    ensures var box, places := StoredBbox(PartBbox(line)), StoredAll(line);
            && (exists m :: 0 <= m < |places| && places[m].lon == box.minLon)
            && (exists m :: 0 <= m < |places| && places[m].lat == box.minLat)
            && (exists m :: 0 <= m < |places| && places[m].lon == box.maxLon)
            && (exists m :: 0 <= m < |places| && places[m].lat == box.maxLat)
  {
    var places, box := StoredAll(line), PartBbox(line);
    var a :| 0 <= a < |line| && Lons(line)[a] == box.minLon;
    var b :| 0 <= b < |line| && Lats(line)[b] == box.minLat;
    var c :| 0 <= c < |line| && Lons(line)[c] == box.maxLon;
    var d :| 0 <= d < |line| && Lats(line)[d] == box.maxLat;
    hide MinOf, MaxOf, FixedToDeg, DegToFixed;
    assert places[a].lon == StoredBbox(box).minLon && places[b].lat == StoredBbox(box).minLat;
    assert places[c].lon == StoredBbox(box).maxLon && places[d].lat == StoredBbox(box).maxLat;
  }
}
