/**
 * Turning a bundle into vertices and line-list index pairs
 * (crates/radar-workstation/src/overlay/project.rs). The map projection is a parameter.
 */
module Projection {
  import opened Bytes
  import opened MapBundle

  const LABEL_LAYER_KIND: nat := 5

  datatype World = World(x: real, y: real)
  datatype ProjectedLayer = ProjectedLayer(kind: nat, first: nat, end: nat)
  datatype ProjectedLabel = ProjectedLabel(world: World, rank: nat, name: seq<byte>)
  datatype Projected = Projected(
    vertices: seq<World>, indices: seq<nat>, layers: seq<ProjectedLayer>, labels: seq<ProjectedLabel>,
    unknownKinds: seq<nat>)

  predicate KnownGeometry(kind: nat) {
    1 <= kind <= 4
  }

  // ---------------------------------------------------------------- what is drawn

  /** The lines that have a segment. */
  function Kept(lines: seq<Polyline>): seq<Polyline> {
    if lines == [] then []
    else
      var n := |lines| - 1;
      Kept(lines[..n]) + if |lines[n]| < 2 then [] else [lines[n]]
  }

  function LinesOf(b: Bundle, layer: Layer): (r: seq<Polyline>)
    ensures |r| == |Parts(b, layer)|
    ensures forall k :: 0 <= k < |r| ==> r[k] == Points(b, Parts(b, layer)[k])
  {
    var parts := Parts(b, layer);
    seq(|parts|, k requires 0 <= k < |parts| => Points(b, parts[k]))
  }

  /** The lines drawn for these layers, in order. */
  function Drawn(b: Bundle, layers: seq<Layer>): seq<Polyline> {
    if layers == [] then []
    else
      var n := |layers| - 1;
      Drawn(b, layers[..n]) + if KnownGeometry(layers[n].kind) then Kept(LinesOf(b, layers[n])) else []
  }

  function ProjectAll(line: Polyline, proj: Place -> World): (r: seq<World>)
    ensures |r| == |line| && forall i :: 0 <= i < |r| ==> r[i] == proj(line[i])
  {
    seq(|line|, i requires 0 <= i < |line| => proj(line[i]))
  }

  /** `start, start+1, start+1, start+2, ...`: one pair for each of `n` segments. */
  function Pairs(start: nat, n: nat): (r: seq<nat>)
    ensures |r| == 2 * n
  {
    if n == 0 then [] else Pairs(start, n - 1) + [start + n - 1, start + n]
  }

  /** The segments between a line's places. */
  function Segments(line: Polyline): nat {
    if line == [] then 0 else |line| - 1
  }

  function Indices(lines: seq<Polyline>): seq<nat> {
    if lines == [] then []
    else
      var n := |lines| - 1;
      Indices(lines[..n]) + Pairs(|Flatten(lines[..n])|, Segments(lines[n]))
  }

  function Ranges(b: Bundle, layers: seq<Layer>): seq<ProjectedLayer> {
    if layers == [] then []
    else
      var n := |layers| - 1;
      Ranges(b, layers[..n]) +
      if KnownGeometry(layers[n].kind)
      then [ProjectedLayer(layers[n].kind, |Indices(Drawn(b, layers[..n]))|, |Indices(Drawn(b, layers))|)] else []
  }

  function WorldLabels(labels: seq<Label>, proj: Place -> World): (r: seq<ProjectedLabel>)
    ensures |r| == |labels|
    ensures forall i :: 0 <= i < |r| ==> r[i] == ProjectedLabel(proj(labels[i].place), labels[i].rank, labels[i].name)
  {
    seq(|labels|, i requires 0 <= i < |labels| =>
      ProjectedLabel(proj(labels[i].place), labels[i].rank, labels[i].name))
  }

  /** The whole label index, once for every label layer. */
  function LabelsFor(layers: seq<Layer>, labels: seq<ProjectedLabel>): seq<ProjectedLabel> {
    if layers == [] then []
    else
      var n := |layers| - 1;
      LabelsFor(layers[..n], labels) + if layers[n].kind == LABEL_LAYER_KIND then labels else []
  }

  function UnknownKinds(layers: seq<Layer>): seq<nat> {
    if layers == [] then []
    else
      var n := |layers| - 1;
      var kind := layers[n].kind;
      UnknownKinds(layers[..n]) + if KnownGeometry(kind) || kind == LABEL_LAYER_KIND then [] else [kind]
  }

  function ProjectionOf(b: Bundle, utf8: seq<byte> -> bool, proj: Place -> World): Projected {
    var layers := Layers(b);
    var lines := Drawn(b, layers);
    Projected(ProjectAll(Flatten(lines), proj), Indices(lines), Ranges(b, layers),
              LabelsFor(layers, WorldLabels(Labels(b, utf8), proj)), UnknownKinds(layers))
  }

  // ---------------------------------------------------------------- the loops

  lemma LineSnoc(lines: seq<Polyline>, line: Polyline)
    ensures Indices(lines + [line]) == Indices(lines) + Pairs(|Flatten(lines)|, Segments(line))
    ensures Kept(lines + [line]) == Kept(lines) + if |line| < 2 then [] else [line]
  {
    hide Pairs, Flatten, Segments;
    var all := lines + [line];
    assert all[..|lines|] == lines && all[|lines|] == line;
  }

  lemma LayerSnoc(b: Bundle, layers: seq<Layer>, layer: Layer, labels: seq<ProjectedLabel>)
    ensures var all := layers + [layer];
            && Drawn(b, all) ==
                 (if KnownGeometry(layer.kind) then Drawn(b, layers) + Kept(LinesOf(b, layer)) else Drawn(b, layers))
            && Ranges(b, all) ==
                 (if KnownGeometry(layer.kind)
                  then Ranges(b, layers) +
                       [ProjectedLayer(layer.kind, |Indices(Drawn(b, layers))|, |Indices(Drawn(b, all))|)]
                  else Ranges(b, layers))
            && LabelsFor(all, labels) ==
                 (if layer.kind == LABEL_LAYER_KIND then LabelsFor(layers, labels) + labels
                  else LabelsFor(layers, labels))
            && UnknownKinds(all) ==
                 (if KnownGeometry(layer.kind) || layer.kind == LABEL_LAYER_KIND then UnknownKinds(layers)
                  else UnknownKinds(layers) + [layer.kind])
  {
    hide Indices, LinesOf, Kept;
    assert (layers + [layer])[..|layers|] == layers;
  }

  /** One part: its vertices, then its pairs; or nothing, when it has no segment. */
  method AddPart(line: Polyline, proj: Place -> World, vertices: seq<World>, indices: seq<nat>)
    returns (vs: seq<World>, ix: seq<nat>)
    ensures |line| < 2 ==> vs == vertices && ix == indices
    ensures |line| >= 2 ==> vs == vertices + ProjectAll(line, proj) && ix == indices + Pairs(|vertices|, |line| - 1)
  {
    vs, ix := vertices, indices;
    var startVertex := |vs|;
    var n := 0;
    for i := 0 to |line|
      invariant n == i && vs == vertices + ProjectAll(line[..i], proj)
    {
      vs := vs + [proj(line[i])];
      n := n + 1;
    }
    assert line[..|line|] == line;
    if n < 2 {
      vs := vs[..startVertex];
      return;
    }
    for i := 0 to n - 1
      invariant ix == indices + Pairs(startVertex, i)
    {
      ix := ix + [startVertex + i];
      ix := ix + [startVertex + i + 1];
    }
  }

  lemma ProjectAppend(a: Polyline, b: Polyline, proj: Place -> World)
    ensures ProjectAll(a + b, proj) == ProjectAll(a, proj) + ProjectAll(b, proj)
  {
  }

  method AddLayer(b: Bundle, layer: Layer, proj: Place -> World, ghost before: seq<Polyline>,
                  vertices: seq<World>, indices: seq<nat>)
    returns (vs: seq<World>, ix: seq<nat>)
    requires vertices == ProjectAll(Flatten(before), proj) && indices == Indices(before)
    ensures vs == ProjectAll(Flatten(before + Kept(LinesOf(b, layer))), proj)
    ensures ix == Indices(before + Kept(LinesOf(b, layer)))
  {
    hide Flatten, Indices, Kept, Pairs, Points, Parts;
    vs, ix := vertices, indices;
    var parts := Parts(b, layer);
    ghost var lines := LinesOf(b, layer);
    NothingKept();
    assert lines[..0] == [] && before + [] == before;
    for k := 0 to |parts|
      invariant vs == ProjectAll(Flatten(before + Kept(lines[..k])), proj)
      invariant ix == Indices(before + Kept(lines[..k]))
    {
      ghost var now := before + Kept(lines[..k]);
      var line := Points(b, parts[k]);
      assert lines[..k + 1] == lines[..k] + [line];
      LineSnoc(lines[..k], line);
      LineSnoc(now, line);
      FlattenSnoc(now, line);
      assert before + (Kept(lines[..k]) + [line]) == now + [line];
      assert Kept(lines[..k]) + [] == Kept(lines[..k]);
      ProjectAppend(Flatten(now), line, proj);
      vs, ix := AddPart(line, proj, vs, ix);
    }
    assert lines[..|parts|] == lines;
  }

  lemma NothingKept()
    ensures Kept([]) == [] && Flatten([]) == [] && Indices([]) == []
  {
  }

  method Project(b: Bundle, utf8: seq<byte> -> bool, proj: Place -> World) returns (r: Projected)
    ensures r == ProjectionOf(b, utf8, proj)
  {
    hide Drawn, Ranges, LabelsFor, UnknownKinds, Flatten, Indices, Kept, Layers, LinesOf, Labels;
    var vertices: seq<World>, indices: seq<nat>, ranges, labels, unknown := [], [], [], [], [];
    var layers := Layers(b);
    ghost var all := WorldLabels(Labels(b, utf8), proj);
    NothingDrawn(b, all);
    NothingKept();
    for i := 0 to |layers|
      invariant vertices == ProjectAll(Flatten(Drawn(b, layers[..i])), proj)
      invariant indices == Indices(Drawn(b, layers[..i]))
      invariant ranges == Ranges(b, layers[..i])
      invariant labels == LabelsFor(layers[..i], all)
      invariant unknown == UnknownKinds(layers[..i])
    {
      var layer := layers[i];
      assert layers[..i + 1] == layers[..i] + [layer];
      LayerSnoc(b, layers[..i], layer, all);
      if layer.kind == LABEL_LAYER_KIND {
        var found := Labels(b, utf8);
        for m := 0 to |found|
          invariant labels == LabelsFor(layers[..i], all) + all[..m]
        {
          labels := labels + [ProjectedLabel(proj(found[m].place), found[m].rank, found[m].name)];
        }
        assert all[..|found|] == all;
      } else if !KnownGeometry(layer.kind) {
        unknown := unknown + [layer.kind];
      } else {
        var indexStart := |indices|;
        vertices, indices := AddLayer(b, layer, proj, Drawn(b, layers[..i]), vertices, indices);
        ranges := ranges + [ProjectedLayer(layer.kind, indexStart, |indices|)];
      }
    }
    assert layers[..|layers|] == layers;
    r := Projected(vertices, indices, ranges, labels, unknown);
  }

  lemma NothingDrawn(b: Bundle, labels: seq<ProjectedLabel>)
    ensures Drawn(b, []) == [] && Ranges(b, []) == [] && LabelsFor([], labels) == [] && UnknownKinds([]) == []
  {
  }

  // ---------------------------------------------------------------- every pair is a segment

  lemma {:induction false} PairAt(start: nat, n: nat, p: nat)
    requires p < n
    ensures Pairs(start, n)[2 * p] == start + p && Pairs(start, n)[2 * p + 1] == start + p + 1
  {
    if p < n - 1 {
      PairAt(start, n - 1, p);
    }
  }

  /** Every line here has a segment. */
  predicate AllSegments(lines: seq<Polyline>) {
    forall k :: 0 <= k < |lines| ==> |lines[k]| >= 2
  }

  lemma {:induction false} KeptHaveSegments(lines: seq<Polyline>)
    ensures AllSegments(Kept(lines))
  {
    if lines != [] {
      KeptHaveSegments(lines[..|lines| - 1]);
    }
  }

  lemma {:induction false} DrawnHaveSegments(b: Bundle, layers: seq<Layer>)
    ensures AllSegments(Drawn(b, layers))
  {
    hide LinesOf, Kept;
    if layers != [] {
      var n := |layers| - 1;
      DrawnHaveSegments(b, layers[..n]);
      KeptHaveSegments(LinesOf(b, layers[n]));
    }
  }

  /** Two indices per segment. */
  function SegmentCount(lines: seq<Polyline>): nat {
    if lines == [] then 0
    else SegmentCount(lines[..|lines| - 1]) + Segments(lines[|lines| - 1])
  }

  lemma {:induction false} IndexCount(lines: seq<Polyline>)
    ensures |Indices(lines)| == 2 * SegmentCount(lines)
  {
    hide Flatten, Pairs;
    if lines != [] {
      IndexCount(lines[..|lines| - 1]);
    }
  }

  /** The pair at `p` joins place `m` of line `k` to the next one. */
  ghost predicate Joins(lines: seq<Polyline>, p: nat, k: nat, m: nat) {
    && k < |lines| && m + 1 < |lines[k]|
    && 2 * p + 1 < |Indices(lines)|
    && Indices(lines)[2 * p] == |Flatten(lines[..k])| + m
    && Indices(lines)[2 * p + 1] == |Flatten(lines[..k])| + m + 1
  }

  /** Every pair joins two consecutive places of one line. */
  lemma {:induction false} PairIsSegment(lines: seq<Polyline>, p: nat) returns (k: nat, m: nat)
    requires p < SegmentCount(lines)
    ensures Joins(lines, p, k, m)
  {
    hide Pairs, Flatten;
    var n := |lines| - 1;
    IndexCount(lines);
    IndexCount(lines[..n]);
    var before := SegmentCount(lines[..n]);
    if p < before {
      k, m := PairIsSegment(lines[..n], p);
      assert lines[..n][..k] == lines[..k];
    } else {
      k, m := n, p - before;
      PairAt(|Flatten(lines[..n])|, |lines[n]| - 1, m);
      PairInside(Indices(lines[..n]), Pairs(|Flatten(lines[..n])|, |lines[n]| - 1), before, m);
    }
  }

  lemma PairInside(a: seq<nat>, b: seq<nat>, before: nat, m: nat)
    requires |a| == 2 * before && 2 * m + 1 < |b|
    ensures (a + b)[2 * (before + m)] == b[2 * m] && (a + b)[2 * (before + m) + 1] == b[2 * m + 1]
  {
  }

  /** And every two consecutive places of a line are joined by a pair. */
  lemma {:induction false} SegmentIsPair(lines: seq<Polyline>, k: nat, m: nat) returns (p: nat)
    requires k < |lines| && m + 1 < |lines[k]|
    ensures p < SegmentCount(lines) && Joins(lines, p, k, m) && p == SegmentCount(lines[..k]) + m
  {
    hide Pairs, Flatten;
    var n := |lines| - 1;
    IndexCount(lines);
    IndexCount(lines[..n]);
    if k < n {
      p := SegmentIsPair(lines[..n], k, m);
      assert lines[..n][..k] == lines[..k];
    } else {
      var before := SegmentCount(lines[..n]);
      p := before + m;
      PairAt(|Flatten(lines[..n])|, |lines[n]| - 1, m);
      PairInside(Indices(lines[..n]), Pairs(|Flatten(lines[..n])|, |lines[n]| - 1), before, m);
    }
  }

  /**
   * For any bundle whatever: each index pair names two vertices there are, the projected
   * ends of one segment of one drawn part.
   */
  lemma PairsAreSegments(b: Bundle, utf8: seq<byte> -> bool, proj: Place -> World, p: nat) returns (k: nat, m: nat)
    requires 2 * p + 1 < |ProjectionOf(b, utf8, proj).indices|
    ensures var r, lines := ProjectionOf(b, utf8, proj), Drawn(b, Layers(b));
            && k < |lines| && m + 1 < |lines[k]|
            && r.indices[2 * p] < |r.vertices| && r.vertices[r.indices[2 * p]] == proj(lines[k][m])
            && r.indices[2 * p + 1] < |r.vertices| && r.vertices[r.indices[2 * p + 1]] == proj(lines[k][m + 1])
  {
    hide Drawn, Layers, Labels, Flatten, Indices;
    var lines := Drawn(b, Layers(b));
    IndexCount(lines);
    k, m := PairIsSegment(lines, p);
    FlattenAt(lines, k);
    var start := |Flatten(lines[..k])|;
    assert Flatten(lines)[start + m] == lines[k][m] && Flatten(lines)[start + (m + 1)] == lines[k][m + 1];
  }

  // ---------------------------------------------------------------- layer ranges

  /** The ranges begin at 0, follow each other and end at the end of the index list. */
  predicate Tile(ranges: seq<ProjectedLayer>, end: nat) {
    && (forall i :: 0 <= i < |ranges| ==> ranges[i].first <= ranges[i].end)
    && (forall i :: 0 < i < |ranges| ==> ranges[i].first == ranges[i - 1].end)
    && (if ranges == [] then end == 0 else ranges[0].first == 0 && ranges[|ranges| - 1].end == end)
  }

  lemma {:induction false} IndicesGrow(lines: seq<Polyline>, more: seq<Polyline>)
    ensures |Indices(lines)| <= |Indices(lines + more)|
    decreases |more|
  {
    hide Flatten, Pairs, Kept;
    if more == [] {
      assert lines + more == lines;
    } else {
      var n := |more| - 1;
      IndicesGrow(lines, more[..n]);
      LineSnoc(lines + more[..n], more[n]);
      assert lines + more == (lines + more[..n]) + [more[n]];
    }
  }

  lemma {:induction false} RangesTile(b: Bundle, layers: seq<Layer>)
    ensures Tile(Ranges(b, layers), |Indices(Drawn(b, layers))|)
  {
    hide LinesOf, Kept, Indices;
    if layers == [] {
      NothingKept();
    } else {
      var n := |layers| - 1;
      RangesTile(b, layers[..n]);
      IndicesGrow(Drawn(b, layers[..n]), if KnownGeometry(layers[n].kind) then Kept(LinesOf(b, layers[n])) else []);
      assert Drawn(b, layers[..n]) + [] == Drawn(b, layers[..n]);
    }
  }

  /** The layers' draw ranges tile the index list, two indices for each segment drawn. */
  lemma LayersTile(b: Bundle, utf8: seq<byte> -> bool, proj: Place -> World)
    ensures var r, lines := ProjectionOf(b, utf8, proj), Drawn(b, Layers(b));
            && Tile(r.layers, |r.indices|) && |r.indices| == 2 * SegmentCount(lines) && AllSegments(lines)
  {
    hide Drawn, Layers, Labels, Flatten, Indices, Ranges;
    RangesTile(b, Layers(b));
    IndexCount(Drawn(b, Layers(b)));
    DrawnHaveSegments(b, Layers(b));
  }
}
