/** What is drawn of a bundle, told from its layers, parts and points alone. */
module ProjectionMeaning {
  import opened Bytes
  import opened Wrappers
  import opened MapBundle
  import opened Projection

  /** Places `m` and `m + 1` of part `k` of layer `i`, which is one of lines. */
  ghost predicate IsSegment(b: Bundle, i: nat, k: nat, m: nat) {
    && i < |Layers(b)| && 1 <= Layers(b)[i].kind <= 4
    && k < |Parts(b, Layers(b)[i])| && m + 1 < |Points(b, Parts(b, Layers(b)[i])[k])|
  }

  /** The index pair at `p` joins the projections of these two places. */
  ghost predicate Draws(r: Projected, p: nat, a: Place, b: Place, proj: Place -> World) {
    && 2 * p + 1 < |r.indices| && r.indices[2 * p] < |r.vertices| && r.indices[2 * p + 1] < |r.vertices|
    && r.vertices[r.indices[2 * p]] == proj(a) && r.vertices[r.indices[2 * p + 1]] == proj(b)
  }

  // ---------------------------------------------------------------- where a drawn line comes from

  lemma {:induction false} KeptFrom(lines: seq<Polyline>, n: nat) returns (k: nat)
    requires n < |Kept(lines)|
    ensures k < |lines| && |lines[k]| >= 2 && Kept(lines)[n] == lines[k]
  {
    var last := |lines| - 1;
    if n < |Kept(lines[..last])| {
      k := KeptFrom(lines[..last], n);
    } else {
      k := last;
    }
  }

  lemma {:induction false} KeptAt(lines: seq<Polyline>, k: nat) returns (n: nat)
    requires k < |lines| && |lines[k]| >= 2
    ensures n < |Kept(lines)| && Kept(lines)[n] == lines[k]
  {
    var last := |lines| - 1;
    if k < last {
      n := KeptAt(lines[..last], k);
    } else {
      n := |Kept(lines[..last])|;
    }
  }

  lemma {:induction false} DrawnFrom(b: Bundle, layers: seq<Layer>, n: nat) returns (i: nat, k: nat)
    requires n < |Drawn(b, layers)|
    ensures i < |layers| && 1 <= layers[i].kind <= 4 && k < |Parts(b, layers[i])|
    ensures Drawn(b, layers)[n] == Points(b, Parts(b, layers[i])[k]) && |Drawn(b, layers)[n]| >= 2
  {
    hide Parts, Points, Kept;
    var last := |layers| - 1;
    var before := Drawn(b, layers[..last]);
    if n < |before| {
      i, k := DrawnFrom(b, layers[..last], n);
    } else {
      i := last;
      k := KeptFrom(LinesOf(b, layers[last]), n - |before|);
    }
  }

  lemma {:induction false} DrawnAt(b: Bundle, layers: seq<Layer>, i: nat, k: nat) returns (n: nat)
    requires i < |layers| && 1 <= layers[i].kind <= 4 && k < |Parts(b, layers[i])|
    requires |Points(b, Parts(b, layers[i])[k])| >= 2
    ensures n < |Drawn(b, layers)| && Drawn(b, layers)[n] == Points(b, Parts(b, layers[i])[k])
    ensures |Drawn(b, layers[..i])| <= n < |Drawn(b, layers[..i + 1])|
  {
    hide Parts, Points, Kept;
    var last := |layers| - 1;
    if i < last {
      n := DrawnAt(b, layers[..last], i, k);
      assert layers[..last][..i] == layers[..i] && layers[..last][..i + 1] == layers[..i + 1];
    } else {
      assert layers[..i + 1] == layers;
      n := KeptAt(LinesOf(b, layers[last]), k);
      n := |Drawn(b, layers[..last])| + n;
    }
  }

  // ---------------------------------------------------------------- segments and pairs

  lemma {:induction false} DrawnPrefix(b: Bundle, layers: seq<Layer>, i: nat)
    requires i <= |layers|
    ensures Drawn(b, layers[..i]) <= Drawn(b, layers)
  {
    hide Kept, LinesOf;
    var last := |layers| - 1;
    if i == |layers| {
      assert layers[..i] == layers;
    } else {
      assert layers[..last][..i] == layers[..i];
      DrawnPrefix(b, layers[..last], i);
    }
  }

  lemma {:induction false} CountGrows(lines: seq<Polyline>, i: nat, j: nat)
    requires i <= j <= |lines|
    ensures SegmentCount(lines[..i]) <= SegmentCount(lines[..j])
    decreases j
  {
    if i < j {
      assert lines[..j][..j - 1] == lines[..j - 1];
      CountGrows(lines, i, j - 1);
    }
  }

  lemma {:induction false} RangeAt(b: Bundle, layers: seq<Layer>, i: nat) returns (x: nat)
    requires i < |layers| && 1 <= layers[i].kind <= 4
    ensures x < |Ranges(b, layers)|
    ensures Ranges(b, layers)[x] == ProjectedLayer(layers[i].kind, |Indices(Drawn(b, layers[..i]))|,
                                                   |Indices(Drawn(b, layers[..i + 1]))|)
  {
    hide Drawn, Indices;
    var last := |layers| - 1;
    if i < last {
      x := RangeAt(b, layers[..last], i);
      assert layers[..last][..i] == layers[..i] && layers[..last][..i + 1] == layers[..i + 1];
    } else {
      x := |Ranges(b, layers[..last])|;
      assert layers[..i + 1] == layers;
    }
  }

  /** The pair of a segment of layer `i` is among the pairs of that layer. */
  lemma InsideLayer(b: Bundle, layers: seq<Layer>, i: nat, n: nat, m: nat, p: nat)
    requires i < |layers| && |Drawn(b, layers[..i])| <= n < |Drawn(b, layers[..i + 1])|
    requires n < |Drawn(b, layers)| && m + 1 < |Drawn(b, layers)[n]|
    requires p == SegmentCount(Drawn(b, layers)[..n]) + m
    ensures |Indices(Drawn(b, layers[..i]))| <= 2 * p && 2 * p + 1 < |Indices(Drawn(b, layers[..i + 1]))|
  {
    var lines, before, through := Drawn(b, layers), Drawn(b, layers[..i]), Drawn(b, layers[..i + 1]);
    DrawnPrefix(b, layers, i);
    DrawnPrefix(b, layers, i + 1);
    hide Drawn;
    assert lines[..|before|] == before && lines[..|through|] == through;
    CountGrows(lines, |before|, n);
    CountGrows(lines, n + 1, |through|);
    assert lines[..n + 1][..n] == lines[..n];
    IndexCount(before);
    IndexCount(through);
  }

  /**
   * For any bundle, every segment of every part of every layer of lines is drawn, in the
   * range of a layer of that kind.
   */
  lemma EverySegmentDrawn(b: Bundle, utf8: seq<byte> -> bool, proj: Place -> World, i: nat, k: nat, m: nat)
    returns (p: nat, x: nat)
    requires IsSegment(b, i, k, m)
    ensures var line := Points(b, Parts(b, Layers(b)[i])[k]);
            Draws(ProjectionOf(b, utf8, proj), p, line[m], line[m + 1], proj)
    ensures var ranges := ProjectionOf(b, utf8, proj).layers;
            && x < |ranges| && ranges[x].kind == Layers(b)[i].kind
            && ranges[x].first <= 2 * p && 2 * p + 1 < ranges[x].end
  {
    hide Drawn, Layers, Labels, Flatten, Indices, Parts, Points;
    var lines := Drawn(b, Layers(b));
    var n := DrawnAt(b, Layers(b), i, k);
    p := SegmentIsPair(lines, n, m);
    x := RangeAt(b, Layers(b), i);
    InsideLayer(b, Layers(b), i, n, m, p);
    FlattenAt(lines, n);
    var start := |Flatten(lines[..n])|;
    assert Flatten(lines)[start + m] == lines[n][m] && Flatten(lines)[start + (m + 1)] == lines[n][m + 1];
  }

  /** And nothing else is: every index pair is one of these segments. */
  lemma OnlySegmentsDrawn(b: Bundle, utf8: seq<byte> -> bool, proj: Place -> World, p: nat)
    returns (i: nat, k: nat, m: nat)
    requires 2 * p + 1 < |ProjectionOf(b, utf8, proj).indices|
    ensures IsSegment(b, i, k, m)
    ensures var line := Points(b, Parts(b, Layers(b)[i])[k]);
            Draws(ProjectionOf(b, utf8, proj), p, line[m], line[m + 1], proj)
  {
    var n: nat;
    n, m := PairsAreSegments(b, utf8, proj, p);
    i, k := DrawnFrom(b, Layers(b), n);
    hide Drawn, Layers, Labels, Flatten, Indices, Parts, Points;
  }

  // ---------------------------------------------------------------- labels and unknown layers

  /** How many layers are label layers. */
  function LabelLayers(layers: seq<Layer>): nat {
    if layers == [] then 0 else LabelLayers(layers[..|layers| - 1]) + if layers[|layers| - 1].kind == 5 then 1 else 0
  }

  lemma {:induction false} LabelsCount(layers: seq<Layer>, labels: seq<ProjectedLabel>)
    ensures |LabelsFor(layers, labels)| == LabelLayers(layers) * |labels|
    ensures forall j :: 0 <= j < |LabelsFor(layers, labels)| ==>
              LabelsFor(layers, labels)[j] == labels[j % |labels|]
  {
    if layers != [] {
      var n := |layers| - 1;
      LabelsCount(layers[..n], labels);
      if layers[n].kind == 5 {
        var c, size := LabelLayers(layers[..n]), |labels|;
        forall j | c * size <= j < c * size + size
          ensures j % size == j - c * size
        {
          Remainder(j, c, size);
        }
      }
    }
  }

  lemma Remainder(j: nat, c: nat, size: nat)
    requires c * size <= j < c * size + size
    ensures j % size == j - c * size
  {
    var q := j / size;
    MulMono(q + 1, c, size);
    MulMono(c + 1, q, size);
  }

  /** Each label layer shows all labels that can be read, in order, at their projected places. */
  lemma LabelsShown(b: Bundle, utf8: seq<byte> -> bool, proj: Place -> World, j: nat)
    ensures var r, labels := ProjectionOf(b, utf8, proj), Labels(b, utf8);
            && |r.labels| == LabelLayers(Layers(b)) * |labels|
            && (j < |r.labels| ==>
                  var shown := labels[j % |labels|];
                  r.labels[j] == ProjectedLabel(proj(shown.place), shown.rank, shown.name))
  {
    hide Layers, Labels, Drawn, Ranges, Indices, Flatten;
    LabelsCount(Layers(b), WorldLabels(Labels(b, utf8), proj));
  }

  /** The kinds reported as unknown are those of the layers that are neither lines nor labels. */
  lemma {:induction false} UnknownIff(layers: seq<Layer>, kind: nat)
    ensures kind in UnknownKinds(layers) <==>
              (kind == 0 || kind >= 6) && exists i :: 0 <= i < |layers| && layers[i].kind == kind
    ensures |UnknownKinds(layers)| <= |layers|
  {
    if layers != [] {
      var n := |layers| - 1;
      UnknownIff(layers[..n], kind);
      assert forall i :: 0 <= i < n ==> layers[..n][i] == layers[i];
    }
  }
}
