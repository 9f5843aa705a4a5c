/** Exactly which geometry and labels a bundle can hold. */
module BundleFits {
  import opened Records
  import opened Wrappers
  import opened MapBundle
  import opened BundleWriter
  import opened BundleRoundTrip

  const U32_END: int := 0x1_0000_0000

  /** Both coordinates fit 32 bits as fixed-point numbers. */
  predicate PlaceFits(p: Place) {
    I32.Fits(DegToFixed(p.lon)) && I32.Fits(DegToFixed(p.lat))
  }

  predicate CityFits(c: City) {
    PlaceFits(c.place) && c.rank < 0x1_0000 && |c.name| < 0x1_0000
  }

  lemma {:induction false} PackFits(fmt: Format, row: seq<int>)
    requires |row| == |fmt|
    ensures Pack(fmt, row).Some? <==> forall k :: 0 <= k < |fmt| ==> fmt[k].Fits(row[k])
  {
    if fmt != [] {
      var n := |fmt| - 1;
      PackFits(fmt[..n], row[..n]);
      assert forall k :: 0 <= k < n ==> fmt[..n][k] == fmt[k] && row[..n][k] == row[k];
    }
  }

  lemma {:induction false} PackRowsFits(fmt: Format, rows: seq<seq<int>>)
    requires Shaped(fmt, rows)
    ensures PackRows(fmt, rows).Some? <==> forall i :: 0 <= i < |rows| ==> Pack(fmt, rows[i]).Some?
  {
    hide Pack;
    if rows != [] {
      var n := |rows| - 1;
      PackRowsFits(fmt, rows[..n]);
      assert forall k :: 0 <= k < n ==> rows[..n][k] == rows[k];
    }
  }

  lemma PointFits(p: Place)
    ensures Pack(POINT, PointRow(p)).Some? <==> PlaceFits(p)
  {
    PackFits(POINT, PointRow(p));
    assert POINT[0] == I32 && POINT[1] == I32;
  }

  lemma LabelFits(off: nat, c: City)
    ensures Pack(LABEL, LabelRow(off, c)).Some? <==> CityFits(c) && off < U32_END
  {
    hide DegToFixed;
    var row := LabelRow(off, c);
    PackFits(LABEL, row);
    assert LABEL[0].Fits(row[0]) && LABEL[1].Fits(row[1]) <==> PlaceFits(c.place);
    assert LABEL[2].Fits(row[2]) <==> c.rank < 0x1_0000;
    assert LABEL[3].Fits(row[3]) <==> off < U32_END;
    assert LABEL[4].Fits(row[4]) <==> |c.name| < 0x1_0000;
  }

  lemma LayerFits(kind: nat, first: nat, count: nat)
    ensures Pack(LAYER, [kind, first, count]).Some? <==> kind < U32_END && first < U32_END && count < U32_END
  {
    var row := [kind as int, first, count];
    PackFits(LAYER, row);
    assert LAYER[0].Fits(row[0]) <==> kind < U32_END;
    assert LAYER[1].Fits(row[1]) <==> first < U32_END;
    assert LAYER[2].Fits(row[2]) <==> count < U32_END;
  }

  lemma HeaderFits(parts: nat, points: nat, labels: nat, strings: nat)
    ensures Pack(HEADER, HeaderRow(parts, points, labels, strings)).Some? <==>
              parts < U32_END && points < U32_END && labels < U32_END && strings < U32_END
  {
    var row := HeaderRow(parts, points, labels, strings);
    PackFits(HEADER, row);
    assert HEADER[0].Fits(row[0]) && HEADER[1].Fits(row[1]);
    assert HEADER[2].Fits(row[2]) <==> parts < U32_END;
    assert HEADER[3].Fits(row[3]) <==> points < U32_END;
    assert HEADER[4].Fits(row[4]) <==> labels < U32_END;
    assert HEADER[5].Fits(row[5]) <==> strings < U32_END;
  }

  /** A part's box is made of its points' coordinates. */
  lemma PartFits(first: nat, part: Polyline)
    requires part != [] && forall i :: 0 <= i < |part| ==> PlaceFits(part[i])
    requires first + |part| < U32_END
    ensures Pack(PART, PartRow(first, part)).Some?
  {
    hide DegToFixed;
    var box := PartBbox(part);
    assert box.minLon in Lons(part) && box.maxLon in Lons(part);
    assert box.minLat in Lats(part) && box.maxLat in Lats(part);
    var row := PartRow(first, part);
    PackFits(PART, row);
    assert PART[0].Fits(row[0]) && PART[1].Fits(row[1]);
    assert PART[2].Fits(row[2]) && PART[3].Fits(row[3]) && PART[4].Fits(row[4]) && PART[5].Fits(row[5]);
  }

  lemma PartsFit(parts: seq<Polyline>)
    requires NoneEmpty(parts) && |Flatten(parts)| < U32_END
    requires forall i :: 0 <= i < |Flatten(parts)| ==> PlaceFits(Flatten(parts)[i])
    ensures PackRows(PART, PartRows(parts)).Some?
  {
    hide Pack, PackRows, PartRows, PartRow, Flatten, PlaceFits;
    forall i | 0 <= i < |parts|
      ensures Pack(PART, PartRows(parts)[i]).Some?
    {
      PartRowAt(parts, i);
      FlattenAt(parts, i);
      var first := |Flatten(parts[..i])|;
      forall m: nat | m < |parts[i]|
        ensures PlaceFits(parts[i][m])
      {
        assert Flatten(parts)[first + m] == parts[i][m];
      }
      PartFits(first, parts[i]);
    }
    PackRowsFits(PART, PartRows(parts));
  }

  lemma PointsFit(points: Polyline)
    ensures PackRows(POINT, PointRows(points)).Some? <==> forall i :: 0 <= i < |points| ==> PlaceFits(points[i])
  {
    hide Pack, PackRows, PointRow, PlaceFits;
    var rows := PointRows(points);
    PackRowsFits(POINT, rows);
    forall i | 0 <= i < |points|
      ensures Pack(POINT, rows[i]).Some? <==> PlaceFits(points[i])
    {
      PointFits(points[i]);
    }
  }

  lemma LabelsFit(labels: seq<City>)
    requires |Names(labels)| < U32_END
    ensures PackRows(LABEL, LabelRows(labels)).Some? <==> forall i :: 0 <= i < |labels| ==> CityFits(labels[i])
  {
    hide Pack, PackRows, LabelRow, LabelRows, CityFits, Names;
    var rows := LabelRows(labels);
    PackRowsFits(LABEL, rows);
    forall i | 0 <= i < |labels|
      ensures Pack(LABEL, rows[i]).Some? <==> CityFits(labels[i])
    {
      LabelRowAt(labels, i);
      NamesAt(labels, i);
      LabelFits(|Names(labels[..i])|, labels[i]);
    }
  }

  lemma LabelLayerFits()
    ensures Pack(LAYER, LabelLayerRow()).Some?
  {
    LayerFits(5, 0, 0);
  }

  lemma LayersFit(layerParts: map<nat, seq<Polyline>>)
    requires Has(layerParts, |KINDS|) && |PartsBefore(layerParts, |KINDS|)| < U32_END
    ensures PackRows(LAYER, LayerRows(layerParts, |KINDS|) + [LabelLayerRow()]).Some?
  {
    hide Pack, PackRows, LayerRows, PartsBefore;
    var rows := LayerRows(layerParts, |KINDS|) + [LabelLayerRow()];
    forall j | 0 <= j < |rows|
      ensures Pack(LAYER, rows[j]).Some?
    {
      if j < |KINDS| {
        LayerRowAt(layerParts, |KINDS|, j);
        PartsOfLayer(layerParts, j);
        LayerFits(KINDS[j], |PartsBefore(layerParts, j)|, |layerParts[KINDS[j]]|);
      } else {
        LabelLayerFits();
      }
    }
    PackRowsFits(LAYER, rows);
  }

  /**
   * A bundle is written exactly when all four layers are given, no part is empty, every
   * place and label fits its fields, and each section's total fits 32 bits.
   */
  lemma BuildsIff(layerParts: map<nat, seq<Polyline>>, labels: seq<City>)
    ensures Build(layerParts, labels).Some? <==>
              && Has(layerParts, |KINDS|)
              && var parts := PartsBefore(layerParts, |KINDS|);
              && NoneEmpty(parts)
              && (forall i :: 0 <= i < |Flatten(parts)| ==> PlaceFits(Flatten(parts)[i]))
              && (forall i :: 0 <= i < |labels| ==> CityFits(labels[i]))
              && |parts| < U32_END && |Flatten(parts)| < U32_END && |labels| < U32_END && |Names(labels)| < U32_END
  {
    hide Pack, PackRows, LayerRows, PartRows, PointRows, LabelRows, PartsBefore, Flatten, Names, PlaceFits, CityFits;
    hide HeaderRow, LabelLayerRow;
    LabelLayerFits();
    if Has(layerParts, |KINDS|) {
      var parts := PartsBefore(layerParts, |KINDS|);
      HeaderFits(|parts|, |Flatten(parts)|, |labels|, |Names(labels)|);
      PointsFit(Flatten(parts));
      PackRowsSnoc(LAYER, LayerRows(layerParts, |KINDS|), LabelLayerRow());
      if |parts| < U32_END {
        LayersFit(layerParts);
      }
      if |Names(labels)| < U32_END {
        LabelsFit(labels);
      }
      if NoneEmpty(parts) && |Flatten(parts)| < U32_END
         && forall i :: 0 <= i < |Flatten(parts)| ==> PlaceFits(Flatten(parts)[i]) {
        PartsFit(parts);
      }
    }
  }
}
