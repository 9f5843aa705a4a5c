/** From the baker to the screen: what a bundle written by the baker draws. */
module BundleDrawn {
  import opened Bytes
  import opened Wrappers
  import opened MapBundle
  import opened BundleWriter
  import opened BundleRoundTrip
  import opened Projection

  function StoredLines(lines: seq<Polyline>): (r: seq<Polyline>)
    ensures |r| == |lines| && forall k :: 0 <= k < |r| ==> r[k] == StoredAll(lines[k])
  {
    seq(|lines|, k requires 0 <= k < |lines| => StoredAll(lines[k]))
  }

  lemma {:induction false} KeptAppend(a: seq<Polyline>, b: seq<Polyline>)
    ensures Kept(a + b) == Kept(a) + Kept(b)
  {
    if b == [] {
      assert a + b == a;
    } else {
      hide Kept;
      var n := |b| - 1;
      KeptAppend(a, b[..n]);
      assert a + b == (a + b[..n]) + [b[n]] && b == b[..n] + [b[n]];
      LineSnoc(a + b[..n], b[n]);
      LineSnoc(b[..n], b[n]);
    }
  }

  lemma LinesReadBack(b: Bundle, layer: Layer, lines: seq<Polyline>)
    requires Reads(b, Parts(b, layer), lines)
    ensures LinesOf(b, layer) == StoredLines(lines)
  {
    hide StoredBbox, PartBbox, Points, Parts;
  }

  lemma {:induction false} DrawnBefore(layerParts: map<nat, seq<Polyline>>, b: Bundle, n: nat)
    requires n <= |KINDS| && Has(layerParts, |KINDS|) && |Layers(b)| > |KINDS|
    requires forall j :: 0 <= j < |KINDS| ==>
               Layers(b)[j].kind == KINDS[j] && Reads(b, Parts(b, Layers(b)[j]), layerParts[KINDS[j]])
    ensures Drawn(b, Layers(b)[..n]) == Kept(StoredLines(PartsBefore(layerParts, n)))
  {
    hide Layers, Reads, Drawn, Kept, PartsBefore, LinesOf, StoredLines;
    if n == 0 {
      NothingDrawn(b, []);
      NothingKept();
      FirstParts(layerParts);
      assert StoredLines([]) == [] && Layers(b)[..0] == [];
    } else {
      DrawnBefore(layerParts, b, n - 1);
      var layer, lines := Layers(b)[n - 1], layerParts[KINDS[n - 1]];
      assert Layers(b)[..n] == Layers(b)[..n - 1] + [layer];
      LayerSnoc(b, Layers(b)[..n - 1], layer, []);
      NextParts(layerParts, n - 1);
      LinesReadBack(b, layer, lines);
      KeptAppend(StoredLines(PartsBefore(layerParts, n - 1)), StoredLines(lines));
      StoredLinesAppend(PartsBefore(layerParts, n - 1), lines);
    }
  }

  lemma StoredLinesAppend(a: seq<Polyline>, b: seq<Polyline>)
    ensures StoredLines(a + b) == StoredLines(a) + StoredLines(b)
  {
    hide StoredAll;
  }

  /** The lines drawn are the stored lines that have a segment; every label is shown, once. */
  ghost predicate Draws(layerParts: map<nat, seq<Polyline>>, labels: seq<City>, utf8: seq<byte> -> bool,
                        proj: Place -> World, b: Bundle) {
    var r := ProjectionOf(b, utf8, proj);
    && Has(layerParts, |KINDS|)
    && Drawn(b, Layers(b)) == Kept(StoredLines(PartsBefore(layerParts, |KINDS|)))
    && r.unknownKinds == []
    && |r.labels| == |labels|
    && forall i :: 0 <= i < |labels| ==>
         r.labels[i] == ProjectedLabel(proj(Stored(labels[i].place)), labels[i].rank, labels[i].name)
  }

  /**
   * The baker's lines are what is drawn: for a bundle that was written, the lines drawn are
   * the lines given, layer by layer in order, at their stored places, less those with no
   * segment; and the labels are the labels given.
   */
  lemma BakedIsDrawn(layerParts: map<nat, seq<Polyline>>, labels: seq<City>, utf8: seq<byte> -> bool,
                     proj: Place -> World)
    ensures Build(layerParts, labels).Some? && NamesAreText(labels, utf8) ==>
              var b := Parse(Build(layerParts, labels).value);
              b.Some? && Draws(layerParts, labels, utf8, proj, b.value)
  {
    hide Build, Parse, Draws, WalksBack;
    BundleReadsBack(layerParts, labels, utf8);
    if Build(layerParts, labels).Some? && NamesAreText(labels, utf8) {
      WalkedIsDrawn(layerParts, labels, utf8, proj, Parse(Build(layerParts, labels).value).value);
    }
  }

  lemma WalkedIsDrawn(layerParts: map<nat, seq<Polyline>>, labels: seq<City>, utf8: seq<byte> -> bool,
                      proj: Place -> World, b: Bundle)
    requires WalksBack(layerParts, labels, utf8, b)
    ensures Draws(layerParts, labels, utf8, proj, b)
  {
    hide Layers, Labels, Drawn, Kept, PartsBefore, LinesOf, StoredLines, Reads, Parts, Stored;
    hide LabelsFor, UnknownKinds, Ranges, Indices, ProjectAll, Flatten;
    var layers, all := Layers(b), WorldLabels(Labels(b, utf8), proj);
    DrawnBefore(layerParts, b, |KINDS|);
    FourKnown(layers[..|KINDS|], all);
    assert layers == layers[..|KINDS|] + [layers[|KINDS|]];
    LayerSnoc(b, layers[..|KINDS|], layers[|KINDS|], all);
  }

  lemma {:induction false} FourKnown(layers: seq<Layer>, labels: seq<ProjectedLabel>)
    requires forall j :: 0 <= j < |layers| ==> KnownGeometry(layers[j].kind)
    ensures LabelsFor(layers, labels) == [] && UnknownKinds(layers) == []
  {
    if layers != [] {
      FourKnown(layers[..|layers| - 1], labels);
    }
  }
}
