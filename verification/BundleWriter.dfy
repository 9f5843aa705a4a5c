/**
 * Writing the map bundle (utility/map-bake/bake.py, `build_bundle`): running cursors over
 * growing buffers, against the bundle as rows of fields. A value outside its field, a part
 * without points and a missing layer are exceptions there and None here.
 */
module BundleWriter {
  import opened Bytes
  import opened Records
  import opened Wrappers
  import opened MapBundle

  const KINDS: seq<nat> := [1, 2, 3, 4]
  const LABEL_KIND: int := 5

  const HEADER: Format := [U32, U32, U32, U32, U32, U32]
  const LAYER: Format := [U32, U32, U32]
  const PART: Format := [U32, U32, I32, I32, I32, I32]
  const POINT: Format := [I32, I32]
  const LABEL: Format := [I32, I32, U16, U32, U16]

  /** A label to write; its name is already UTF-8. */
  datatype City = City(place: Place, rank: nat, name: seq<byte>)

  // ---------------------------------------------------------------- fixed point

  /** `round`: to the nearest, and a tie to the even one. */
  function Round(x: real): (r: int)
    ensures -0.5 <= r as real - x <= 0.5
    ensures r as real - x == 0.5 || r as real - x == -0.5 ==> r % 2 == 0
  {
    var low := x.Floor;
    var rest := x - low as real;
    if rest < 0.5 || (rest == 0.5 && low % 2 == 0) then low else low + 1
  }

  function DegToFixed(deg: real): int {
    Round(deg * 10000000.0)
  }

  lemma RoundIsMonotone(x: real, y: real)
    requires x <= y
    ensures Round(x) <= Round(y)
  {
  }

  lemma FixedIsMonotone(a: real, b: real)
    requires a <= b
    ensures FixedToDeg(DegToFixed(a)) <= FixedToDeg(DegToFixed(b))
  {
    RoundIsMonotone(a * 10000000.0, b * 10000000.0);
  }

  /** What is read back is within half of 1e-7 degree. */
  lemma FixedIsClose(deg: real)
    ensures -0.00000005 <= FixedToDeg(DegToFixed(deg)) - deg <= 0.00000005
  {
    var v := DegToFixed(deg);
    assert -0.5 <= v as real - deg * 10000000.0 <= 0.5;
  }

  // ---------------------------------------------------------------- rows

  function MinOf(xs: seq<real>): (r: real)
    requires xs != []
    ensures r in xs && forall i :: 0 <= i < |xs| ==> r <= xs[i]
  {
    if |xs| == 1 then xs[0]
    else
      var rest := MinOf(xs[..|xs| - 1]);
      if xs[|xs| - 1] < rest then xs[|xs| - 1] else rest
  }

  function MaxOf(xs: seq<real>): (r: real)
    requires xs != []
    ensures r in xs && forall i :: 0 <= i < |xs| ==> xs[i] <= r
  {
    if |xs| == 1 then xs[0]
    else
      var rest := MaxOf(xs[..|xs| - 1]);
      if xs[|xs| - 1] > rest then xs[|xs| - 1] else rest
  }

  function Lons(part: Polyline): (r: seq<real>)
    ensures |r| == |part| && forall i :: 0 <= i < |r| ==> r[i] == part[i].lon
  {
    seq(|part|, i requires 0 <= i < |part| => part[i].lon)
  }

  function Lats(part: Polyline): (r: seq<real>)
    ensures |r| == |part| && forall i :: 0 <= i < |r| ==> r[i] == part[i].lat
  {
    seq(|part|, i requires 0 <= i < |part| => part[i].lat)
  }

  function PartBbox(part: Polyline): Bbox
    requires part != []
  {
    Bbox(MinOf(Lons(part)), MinOf(Lats(part)), MaxOf(Lons(part)), MaxOf(Lats(part)))
  }

  function PartRow(first: nat, part: Polyline): (r: seq<int>)
    requires part != []
    ensures |r| == |PART|
  {
    var box := PartBbox(part);
    [first, |part|, DegToFixed(box.minLon), DegToFixed(box.minLat), DegToFixed(box.maxLon), DegToFixed(box.maxLat)]
  }

  predicate NoneEmpty(parts: seq<Polyline>) {
    forall i :: 0 <= i < |parts| ==> parts[i] != []
  }

  function PartRows(parts: seq<Polyline>): (r: seq<seq<int>>)
    requires NoneEmpty(parts)
    ensures |r| == |parts| && Shaped(PART, r)
  {
    if parts == [] then []
    else
      var n := |parts| - 1;
      PartRows(parts[..n]) + [PartRow(|Flatten(parts[..n])|, parts[n])]
  }

  function PointRow(p: Place): (r: seq<int>)
    ensures |r| == |POINT|
  {
    [DegToFixed(p.lon), DegToFixed(p.lat)]
  }

  function PointRows(points: Polyline): (r: seq<seq<int>>)
    ensures |r| == |points| && Shaped(POINT, r)
    ensures forall i :: 0 <= i < |r| ==> r[i] == PointRow(points[i])
  {
    seq(|points|, i requires 0 <= i < |points| => PointRow(points[i]))
  }

  predicate Has(layerParts: map<nat, seq<Polyline>>, n: nat)
    requires n <= |KINDS|
  {
    forall j :: 0 <= j < n ==> KINDS[j] in layerParts
  }

  /** The parts of the first `n` layers. */
  function PartsBefore(layerParts: map<nat, seq<Polyline>>, n: nat): seq<Polyline>
    requires n <= |KINDS| && Has(layerParts, n)
  {
    if n == 0 then [] else PartsBefore(layerParts, n - 1) + layerParts[KINDS[n - 1]]
  }

  function LayerRow(layerParts: map<nat, seq<Polyline>>, j: nat): (r: seq<int>)
    requires j < |KINDS| && Has(layerParts, j + 1)
    ensures |r| == |LAYER|
  {
    [KINDS[j], |PartsBefore(layerParts, j)|, |layerParts[KINDS[j]]|]
  }

  function LayerRows(layerParts: map<nat, seq<Polyline>>, n: nat): (r: seq<seq<int>>)
    requires n <= |KINDS| && Has(layerParts, n)
    ensures |r| == n && Shaped(LAYER, r)
  {
    if n == 0 then [] else LayerRows(layerParts, n - 1) + [LayerRow(layerParts, n - 1)]
  }

  function LabelLayerRow(): (r: seq<int>)
    ensures |r| == |LAYER|
  {
    [LABEL_KIND, 0, 0]
  }

  function Names(labels: seq<City>): seq<byte> {
    if labels == [] then [] else Names(labels[..|labels| - 1]) + labels[|labels| - 1].name
  }

  function LabelRow(nameOff: nat, c: City): (r: seq<int>)
    ensures |r| == |LABEL|
  {
    [DegToFixed(c.place.lon), DegToFixed(c.place.lat), c.rank, nameOff, |c.name|]
  }

  function LabelRows(labels: seq<City>): (r: seq<seq<int>>)
    ensures |r| == |labels| && Shaped(LABEL, r)
  {
    if labels == [] then []
    else
      var n := |labels| - 1;
      LabelRows(labels[..n]) + [LabelRow(|Names(labels[..n])|, labels[n])]
  }

  function HeaderRow(parts: nat, points: nat, labels: nat, strings: nat): (r: seq<int>)
    ensures |r| == |HEADER|
  {
    [FORMAT_VERSION, |KINDS| + 1, parts, points, labels, strings]
  }

  // ---------------------------------------------------------------- the bundle

  datatype Geometry = Geometry(index: seq<byte>, points: seq<byte>)

  /** The part index and the point array of these parts. */
  function PackParts(parts: seq<Polyline>): Option<Geometry> {
    if !NoneEmpty(parts) then None
    else
      var index := PackRows(PART, PartRows(parts));
      var points := PackRows(POINT, PointRows(Flatten(parts)));
      if index.Some? && points.Some? then Some(Geometry(index.value, points.value)) else None
  }

  datatype Layered = Layered(table: seq<byte>, geometry: Geometry)

  /** The geometry layers' rows of the layer table, and their parts. */
  function PackLayers(layerParts: map<nat, seq<Polyline>>): Option<Layered> {
    if !Has(layerParts, |KINDS|) then None
    else
      var table := PackRows(LAYER, LayerRows(layerParts, |KINDS|));
      var geometry := PackParts(PartsBefore(layerParts, |KINDS|));
      if table.Some? && geometry.Some? then Some(Layered(table.value, geometry.value)) else None
  }

  function Build(layerParts: map<nat, seq<Polyline>>, labels: seq<City>): Option<seq<byte>> {
    var layers := PackLayers(layerParts);
    if layers.None? then None
    else
      var parts := PartsBefore(layerParts, |KINDS|);
      var labelLayer := Pack(LAYER, LabelLayerRow());
      var labelIndex := PackRows(LABEL, LabelRows(labels));
      var header := Pack(HEADER, HeaderRow(|parts|, |Flatten(parts)|, |labels|, |Names(labels)|));
      if labelLayer.None? || labelIndex.None? || header.None? then None
      else
        Some(MAGIC + header.value + (layers.value.table + labelLayer.value) + layers.value.geometry.index
             + layers.value.geometry.points + labelIndex.value + Names(labels))
  }

  // ---------------------------------------------------------------- growing buffers

  lemma {:induction false} PackRowsAppend(fmt: Format, a: seq<seq<int>>, b: seq<seq<int>>)
    requires Shaped(fmt, a) && Shaped(fmt, b)
    ensures PackRows(fmt, a + b) ==
              if PackRows(fmt, a).Some? && PackRows(fmt, b).Some?
              then Some(PackRows(fmt, a).value + PackRows(fmt, b).value) else None
  {
    if b == [] {
      assert a + b == a;
      NoRows(fmt);
      if PackRows(fmt, a).Some? {
        assert PackRows(fmt, a).value + [] == PackRows(fmt, a).value;
      }
    } else {
      hide Pack, PackRows;
      var n := |b| - 1;
      PackRowsAppend(fmt, a, b[..n]);
      assert a + b == (a + b[..n]) + [b[n]];
      PackRowsSnoc(fmt, a + b[..n], b[n]);
      PackRowsSnoc(fmt, b[..n], b[n]);
      assert b == b[..n] + [b[n]];
      if PackRows(fmt, a).Some? && PackRows(fmt, b).Some? {
        Assoc(PackRows(fmt, a).value, PackRows(fmt, b[..n]).value, Pack(fmt, b[n]).value);
      }
    }
  }

  lemma PartRowsSnoc(parts: seq<Polyline>, part: Polyline)
    requires NoneEmpty(parts) && part != []
    ensures PartRows(parts + [part]) == PartRows(parts) + [PartRow(|Flatten(parts)|, part)]
  {
    hide PartRow, Flatten;
    assert (parts + [part])[..|parts|] == parts;
  }

  /** One more part: its index entry and its points go at the end of the two buffers. */
  lemma PackPartsSnoc(parts: seq<Polyline>, part: Polyline)
    ensures PackParts(parts + [part]) ==
              if PackParts(parts).None? || part == [] || Pack(PART, PartRow(|Flatten(parts)|, part)).None?
                 || PackRows(POINT, PointRows(part)).None? then None
              else Some(Geometry(
                PackParts(parts).value.index + Pack(PART, PartRow(|Flatten(parts)|, part)).value,
                PackParts(parts).value.points + PackRows(POINT, PointRows(part)).value))
  {
    hide Pack, PackRows, PartRow, PartRows, Flatten, PointRows, PointRow;
    var all := parts + [part];
    FlattenSnoc(parts, part);
    assert all[|parts|] == part && forall i :: 0 <= i < |parts| ==> all[i] == parts[i];
    assert PointRows(Flatten(parts) + part) == PointRows(Flatten(parts)) + PointRows(part);
    PackRowsAppend(POINT, PointRows(Flatten(parts)), PointRows(part));
    if NoneEmpty(all) {
      PartRowsSnoc(parts, part);
      PackRowsSnoc(PART, PartRows(parts), PartRow(|Flatten(parts)|, part));
    }
  }

  /** More parts never repair a buffer that could not be written. */
  lemma {:induction false} PackPartsPrefix(parts: seq<Polyline>, more: seq<Polyline>)
    ensures PackParts(parts + more).Some? ==> PackParts(parts).Some?
    decreases |more|
  {
    hide PackParts;
    if more == [] {
      assert parts + more == parts;
    } else {
      var n := |more| - 1;
      PackPartsPrefix(parts, more[..n]);
      PackPartsSnoc(parts + more[..n], more[n]);
      assert parts + more == (parts + more[..n]) + [more[n]];
    }
  }

  lemma {:induction false} PartsBeforePrefix(layerParts: map<nat, seq<Polyline>>, n: nat, m: nat)
    returns (more: seq<Polyline>)
    requires n <= m <= |KINDS| && Has(layerParts, m)
    ensures PartsBefore(layerParts, m) == PartsBefore(layerParts, n) + more
    decreases m - n
  {
    if n == m {
      more := [];
    } else {
      more := PartsBeforePrefix(layerParts, n, m - 1);
      more := more + layerParts[KINDS[m - 1]];
    }
  }

  /** Appends a part's points to the point array. */
  method AddPoints(part: Polyline, points: seq<byte>) returns (r: Option<seq<byte>>)
    ensures r == match PackRows(POINT, PointRows(part))
                 case None => None
                 case Some(packed) => Some(points + packed)
  {
    hide Pack, PackRows, PointRow;
    var all := points;
    NoRows(POINT);
    assert PointRows([]) == [];
    for m := 0 to |part|
      invariant PackRows(POINT, PointRows(part[..m])).Some?
      invariant all == points + PackRows(POINT, PointRows(part[..m])).value
    {
      assert PointRows(part[..m + 1]) == PointRows(part[..m]) + [PointRow(part[m])];
      PackRowsSnoc(POINT, PointRows(part[..m]), PointRow(part[m]));
      var packed := Pack(POINT, [DegToFixed(part[m].lon), DegToFixed(part[m].lat)]);
      PointRowIs(part[m]);
      if packed.None? {
        assert PointRows(part)[..m + 1] == PointRows(part[..m + 1]);
        if PackRows(POINT, PointRows(part)).Some? {
          PackRowsPrefix(POINT, PointRows(part), m + 1);
        }
        return None;
      }
      all := all + packed.value;
    }
    assert part[..|part|] == part;
    r := Some(all);
  }

  lemma NoRows(fmt: Format)
    ensures PackRows(fmt, []) == Some([])
  {
  }

  lemma PointRowIs(p: Place)
    ensures PointRow(p) == [DegToFixed(p.lon), DegToFixed(p.lat)]
  {
  }

  /** Appends one layer's parts to the part index and the point array. */
  method AddParts(ghost done: seq<Polyline>, parts: seq<Polyline>, before: Geometry, pointCursor: nat)
    returns (r: Option<Geometry>, cursor: nat)
    requires PackParts(done) == Some(before) && pointCursor == |Flatten(done)|
    ensures r == PackParts(done + parts)
    ensures r.Some? ==> cursor == |Flatten(done + parts)|
  {
    hide Pack, PackRows, PackParts, PartRow, PointRows, Flatten;
    var index, points := before.index, before.points;
    cursor := pointCursor;
    assert done + parts[..0] == done;
    for k := 0 to |parts|
      invariant PackParts(done + parts[..k]) == Some(Geometry(index, points))
      invariant cursor == |Flatten(done + parts[..k])|
    {
      var part := parts[k];
      ghost var now := done + parts[..k];
      PackPartsSnoc(now, part);
      FlattenSnoc(now, part);
      assert now + [part] == done + parts[..k + 1];
      assert done + parts == (done + parts[..k + 1]) + parts[k + 1..];
      PackPartsPrefix(done + parts[..k + 1], parts[k + 1..]);
      if part == [] {
        return None, cursor;
      }
      var entry := Pack(PART, PartRow(cursor, part));
      if entry.None? {
        return None, cursor;
      }
      var added := AddPoints(part, points);
      if added.None? {
        return None, cursor;
      }
      index := index + entry.value;
      points := added.value;
      cursor := cursor + |part|;
    }
    assert parts[..|parts|] == parts;
    r := Some(Geometry(index, points));
  }

  lemma {:induction false} NamesPrefix(labels: seq<City>, k: nat)
    requires k <= |labels|
    ensures Names(labels[..k]) <= Names(labels)
    decreases |labels|
  {
    if k < |labels| {
      assert labels[..|labels| - 1][..k] == labels[..k];
      NamesPrefix(labels[..|labels| - 1], k);
    } else {
      assert labels[..k] == labels;
    }
  }

  lemma {:induction false} LabelRowAt(labels: seq<City>, i: nat)
    requires i < |labels|
    ensures LabelRows(labels)[i] == LabelRow(|Names(labels[..i])|, labels[i])
  {
    hide LabelRow;
    var n := |labels| - 1;
    if i < n {
      assert labels[..n][..i] == labels[..i];
      LabelRowAt(labels[..n], i);
    }
  }

  /** The string table with every name's place in it, then the label index. */
  method AddLabels(labels: seq<City>) returns (r: Option<seq<byte>>, strings: seq<byte>)
    ensures r == PackRows(LABEL, LabelRows(labels))
    ensures strings == Names(labels)
  {
    hide Pack, PackRows, LabelRow;
    strings := [];
    var offsets: seq<nat> := [];
    for i := 0 to |labels|
      invariant strings == Names(labels[..i])
      invariant |offsets| == i && forall k :: 0 <= k < i ==> offsets[k] == |Names(labels[..k])|
    {
      assert labels[..i + 1][..i] == labels[..i];
      offsets := offsets + [|strings|];
      strings := strings + labels[i].name;
    }
    assert labels[..|labels|] == labels;
    var index := [];
    NoRows(LABEL);
    for i := 0 to |labels|
      invariant PackRows(LABEL, LabelRows(labels)[..i]) == Some(index)
    {
      LabelRowAt(labels, i);
      var entry := Pack(LABEL, LabelRow(offsets[i], labels[i]));
      assert LabelRows(labels)[..i + 1] == LabelRows(labels)[..i] + [LabelRows(labels)[i]];
      PackRowsSnoc(LABEL, LabelRows(labels)[..i], LabelRows(labels)[i]);
      if entry.None? {
        if PackRows(LABEL, LabelRows(labels)).Some? {
          PackRowsPrefix(LABEL, LabelRows(labels), i + 1);
        }
        return None, strings;
      }
      index := index + entry.value;
    }
    assert LabelRows(labels)[..|labels|] == LabelRows(labels);
    r := Some(index);
  }

  lemma LayerRowsPrefix(layerParts: map<nat, seq<Polyline>>, n: nat, m: nat)
    requires n <= m <= |KINDS| && Has(layerParts, m)
    ensures LayerRows(layerParts, n) == LayerRows(layerParts, m)[..n]
    decreases m - n
  {
    if n < m {
      LayerRowsPrefix(layerParts, n, m - 1);
    }
  }

  /** Layers that can be written can be written as far as any of them. */
  lemma PackLayersPrefix(layerParts: map<nat, seq<Polyline>>, n: nat)
    requires n <= |KINDS|
    ensures PackLayers(layerParts).Some? ==>
              && Has(layerParts, n) && PackParts(PartsBefore(layerParts, n)).Some?
              && PackRows(LAYER, LayerRows(layerParts, n)).Some?
  {
    hide PackParts, PackRows, Pack, LayerRows, PartsBefore;
    if PackLayers(layerParts).Some? {
      var more := PartsBeforePrefix(layerParts, n, |KINDS|);
      PackPartsPrefix(PartsBefore(layerParts, n), more);
      LayerRowsPrefix(layerParts, n, |KINDS|);
      PackRowsPrefix(LAYER, LayerRows(layerParts, |KINDS|), n);
    }
  }

  lemma FirstParts(layerParts: map<nat, seq<Polyline>>)
    ensures PartsBefore(layerParts, 0) == [] && LayerRows(layerParts, 0) == []
    ensures PackParts([]) == Some(Geometry([], [])) && Flatten([]) == [] && PackRows(LAYER, []) == Some([])
  {
  }

  lemma NextParts(layerParts: map<nat, seq<Polyline>>, j: nat)
    requires j < |KINDS| && Has(layerParts, j + 1)
    ensures PartsBefore(layerParts, j + 1) == PartsBefore(layerParts, j) + layerParts[KINDS[j]]
    ensures LayerRows(layerParts, j + 1) == LayerRows(layerParts, j) + [LayerRow(layerParts, j)]
    ensures LayerRow(layerParts, j) == [KINDS[j], |PartsBefore(layerParts, j)|, |layerParts[KINDS[j]]|]
  {
  }

  /** The geometry layers: their table rows, and all their parts. */
  method AddLayers(layerParts: map<nat, seq<Polyline>>) returns (r: Option<Layered>, partCursor: nat, pointCursor: nat)
    ensures r == PackLayers(layerParts)
    ensures r.Some? ==>
              && Has(layerParts, |KINDS|)
              && partCursor == |PartsBefore(layerParts, |KINDS|)|
              && pointCursor == |Flatten(PartsBefore(layerParts, |KINDS|))|
  {
    hide PackParts, PackRows, Pack, LayerRows, PartsBefore, Flatten, LayerRow;
    var table, geometry := [], Geometry([], []);
    partCursor, pointCursor := 0, 0;
    FirstParts(layerParts);
    for j := 0 to |KINDS|
      invariant Has(layerParts, j)
      invariant PackRows(LAYER, LayerRows(layerParts, j)) == Some(table)
      invariant PackParts(PartsBefore(layerParts, j)) == Some(geometry)
      invariant partCursor == |PartsBefore(layerParts, j)|
      invariant pointCursor == |Flatten(PartsBefore(layerParts, j))|
    {
      PackLayersPrefix(layerParts, j + 1);
      if KINDS[j] !in layerParts {
        return None, partCursor, pointCursor;
      }
      var parts := layerParts[KINDS[j]];
      NextParts(layerParts, j);
      var firstPart := partCursor;
      var added, cursor := AddParts(PartsBefore(layerParts, j), parts, geometry, pointCursor);
      if added.None? {
        return None, partCursor, pointCursor;
      }
      geometry, pointCursor, partCursor := added.value, cursor, partCursor + |parts|;
      PackRowsSnoc(LAYER, LayerRows(layerParts, j), LayerRow(layerParts, j));
      var row := Pack(LAYER, [KINDS[j], firstPart, |parts|]);
      if row.None? {
        return None, partCursor, pointCursor;
      }
      table := table + row.value;
    }
    r := Some(Layered(table, geometry));
  }

  method BuildBundle(layerParts: map<nat, seq<Polyline>>, labels: seq<City>) returns (r: Option<seq<byte>>)
    ensures r == Build(layerParts, labels)
  {
    hide PackLayers, PackRows, Pack, LabelRows, PartsBefore, Flatten, Names;
    var added, partCursor, pointCursor := AddLayers(layerParts);
    if added.None? {
      return None;
    }
    var layers := added.value;
    var labelLayer := Pack(LAYER, [LABEL_KIND, 0, 0]);
    if labelLayer.None? {
      return None;
    }
    var labelIndex, strings := AddLabels(labels);
    if labelIndex.None? {
      return None;
    }
    var header := Pack(HEADER, [FORMAT_VERSION, |KINDS| + 1, partCursor, pointCursor, |labels|, |strings|]);
    if header.None? {
      return None;
    }
    var layerTable := layers.table + labelLayer.value;
    r := Some(MAGIC + header.value + layerTable + layers.geometry.index + layers.geometry.points
              + labelIndex.value + strings);
  }
}
